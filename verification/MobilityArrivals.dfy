/** What the untrimmed histories hold, told from the calls alone: entries are arrivals, samples are counts of the
    vehicles last seen on the edge. */
module MobilityArrivals {
  import opened Basics
  import opened MobilityWindows
  import opened MobilityGraph

  // ---------------------------------------------------------------- where actors are

  /** The observation that a call makes of an actor. */
  predicate Observes(op: Op, id: string) {
    (op.ObserveVehicle? || op.ObservePedestrian?) && op.id == id
  }

  function Placed(op: Op): Option<string>
    requires op.ObserveVehicle? || op.ObservePedestrian?
  {
    if op.ObserveVehicle? then op.v.segment else op.segment
  }

  /** The edge of an actor's latest observation. */
  function Whereabouts(ops: seq<(Op, real)>, id: string): Option<string> {
    if ops == [] then None
    else if Observes(ops[|ops| - 1].0, id) then Placed(ops[|ops| - 1].0)
    else Whereabouts(ops[..|ops| - 1], id)
  }

  /** The k-th call places an actor on the edge that was elsewhere or nowhere before. */
  predicate Arrives(ops: seq<(Op, real)>, k: nat, edge: string)
    requires k < |ops|
  {
    var op := ops[k].0;
    (op.ObserveVehicle? || op.ObservePedestrian?) && Placed(op) == Some(edge)
    && Whereabouts(ops[..k], op.id) != Some(edge)
  }

  /** The arrivals at an edge, in order. */
  function Arrivals(ops: seq<(Op, real)>, edge: string): seq<Timed<string>> {
    if ops == [] then []
    else
      var n := |ops| - 1;
      Arrivals(ops[..n], edge) + (if Arrives(ops, n, edge) then [Timed(ops[n].1, ops[n].0.id)] else [])
  }

  lemma {:induction false} RecordAllKeeps(g: Graph, edges: seq<string>, now: real)
    ensures RecordAll(g, edges, now).actorEdges == g.actorEdges
    ensures RecordAll(g, edges, now).vehicles == g.vehicles
    decreases |edges|
  {
    if edges != [] {
      RecordAllKeeps(Record(g, edges[0], now), edges[1..], now);
    }
  }

  /** The step on an observation: only the observed actor moves, and it enters an edge it was not on. */
  lemma MoveIs(full: Graph, id: string, segment: Option<string>, now: real, edge: string)
    requires !full.trimming
    ensures
      var r := Move(full, id, segment, now);
      && !r.trimming && r.vehicles == full.vehicles
      && (forall x :: Prior(r, x) == if x == id then segment else Prior(full, x))
      && At(r.entries, edge) == At(full.entries, edge)
                                + (if segment == Some(edge) && Prior(full, id) != Some(edge)
                                   then [Timed(now, id)] else [])
  {
    var affected := Affected(segment, Prior(full, id));
    RecordAllKeepsEntries(Place(full, id, segment, now), affected, now);
    RecordAllKeeps(Place(full, id, segment, now), affected, now);
  }

  ghost predicate Follows(ops: seq<(Op, real)>, full: Graph, edge: string) {
    && !full.trimming && (forall id :: Prior(full, id) == Whereabouts(ops, id))
    && At(full.entries, edge) == Arrivals(ops, edge)
  }

  lemma ObservationFollows(ops: seq<(Op, real)>, full: Graph, stored: Graph, id: string, segment: Option<string>,
                           now: real, edge: string)
    requires ops != [] && Follows(ops[..|ops| - 1], full, edge) && ops[|ops| - 1].1 == now
    requires Observes(ops[|ops| - 1].0, id) && Placed(ops[|ops| - 1].0) == segment
    requires stored.actorEdges == full.actorEdges && stored.entries == full.entries && !stored.trimming
    ensures Follows(ops, Move(stored, id, segment, now), edge)
  {
    MoveIs(stored, id, segment, now, edge);
    assert forall x :: Prior(stored, x) == Prior(full, x);
  }

  lemma OtherCallFollows(ops: seq<(Op, real)>, full: Graph, r: Graph, edge: string)
    requires ops != [] && Follows(ops[..|ops| - 1], full, edge)
    requires !ops[|ops| - 1].0.ObserveVehicle? && !ops[|ops| - 1].0.ObservePedestrian?
    requires r.actorEdges == full.actorEdges && r.entries == full.entries && !r.trimming
    ensures Follows(ops, r, edge)
  {
    assert forall x :: Prior(r, x) == Prior(full, x);
  }

  lemma StepFollows(ops: seq<(Op, real)>, full: Graph, edge: string)
    requires ops != [] && Follows(ops[..|ops| - 1], full, edge)
    ensures Follows(ops, Step(full, ops[|ops| - 1].0, ops[|ops| - 1].1), edge)
  {
    var (op, now) := ops[|ops| - 1];
    match op
    case ObserveVehicle(id, v) =>
      ObservationFollows(ops, full, full.(vehicles := full.vehicles.Put(id, v)), id, v.segment, now, edge);
    case ObservePedestrian(id, segment) =>
      ObservationFollows(ops, full, full.(pedestrians := full.pedestrians[id := segment]), id, segment, now, edge);
    case _ => OtherCallFollows(ops, full, Step(full, op, now), edge);
  }

  /** Over any run the untrimmed entries of an edge are exactly the arrivals there, in order. */
  lemma {:induction false} EntriesAreArrivals(ops: seq<(Op, real)>, edge: string)
    ensures Follows(ops, Untrimmed(ops), edge)
    ensures At(Untrimmed(ops).entries, edge) == Arrivals(ops, edge)
  {
    if ops != [] {
      EntriesAreArrivals(ops[..|ops| - 1], edge);
      StepFollows(ops, Untrimmed(ops[..|ops| - 1]), edge);
    }
  }

  // ---------------------------------------------------------------- the flow

  /** The calls since the cutoff by which an actor arrives. */
  function RecentArrivals(ops: seq<(Op, real)>, edge: string, cutoff: real): set<nat> {
    set k: nat | k < |ops| && Arrives(ops, k, edge) && ops[k].1 >= cutoff
  }

  lemma {:induction false} SinceSnoc<T>(items: seq<Timed<T>>, x: Timed<T>, cutoff: real)
    ensures Since(items + [x], cutoff) == Since(items, cutoff) + (if x.time >= cutoff then [x] else [])
  {
    if items == [] {
      assert Since([x][1..], cutoff) == [];
    } else {
      assert (items + [x])[1..] == items[1..] + [x];
      SinceSnoc(items[1..], x, cutoff);
    }
  }

  lemma RecentSnoc(ops: seq<(Op, real)>, edge: string, cutoff: real)
    requires ops != []
    ensures
      var n := |ops| - 1;
      && RecentArrivals(ops, edge, cutoff) ==
         RecentArrivals(ops[..n], edge, cutoff) + (if Arrives(ops, n, edge) && ops[n].1 >= cutoff then {n} else {})
      && n !in RecentArrivals(ops[..n], edge, cutoff)
  {
    var n := |ops| - 1;
    forall k: nat | k < n
      ensures Arrives(ops[..n], k, edge) == Arrives(ops, k, edge)
    {
      assert ops[..n][..k] == ops[..k];
    }
  }

  lemma {:induction false} ArrivalsSince(ops: seq<(Op, real)>, edge: string, cutoff: real)
    ensures |Since(Arrivals(ops, edge), cutoff)| == |RecentArrivals(ops, edge, cutoff)|
  {
    if ops == [] {
      assert RecentArrivals(ops, edge, cutoff) == {};
    } else {
      var n := |ops| - 1;
      ArrivalsSince(ops[..n], edge, cutoff);
      RecentSnoc(ops, edge, cutoff);
      if Arrives(ops, n, edge) {
        SinceSnoc(Arrivals(ops[..n], edge), Timed(ops[n].1, ops[n].0.id), cutoff);
        assert Arrivals(ops, edge) == Arrivals(ops[..n], edge) + [Timed(ops[n].1, ops[n].0.id)];
      } else {
        assert Arrivals(ops, edge) == Arrivals(ops[..n], edge);
      }
    }
  }

  lemma EntriesSince(ops: seq<(Op, real)>, edge: string, cutoff: real)
    ensures |Since(At(Untrimmed(ops).entries, edge), cutoff)| == |RecentArrivals(ops, edge, cutoff)|
  {
    EntriesAreArrivals(ops, edge);
    ArrivalsSince(ops, edge, cutoff);
  }

  /** What a look at an edge of this graph shows. */
  function LookAt(g: Graph, edge: string, now: real): EdgeState {
    var trimmed := TrimEdge(g, edge, now);
    Shown(trimmed, edge, SampleOf(g, edge), |At(trimmed.entries, edge)|, now)
  }

  /** What a look at an edge shows after these calls. */
  function Look(ops: seq<(Op, real)>, edge: string, now: real): EdgeState {
    LookAt(Trimmed(ops), edge, now)
  }

  /** On a forward clock the flow shown is the hourly rate of the arrivals of the last minute. */
  lemma FlowIsArrivalRate(ops: seq<(Op, real)>, edge: string, now: real)
    requires Forward(ops, now)
    ensures Look(ops, edge, now).flow == 60.0 * |RecentArrivals(ops, edge, now - 60.0)| as real
  {
    ForwardFlowIsExact(ops, edge, now);
    EntriesSince(ops, edge, now - 60.0);
  }

  /** The window over the untrimmed history of an edge. */
  function FullWindow(ops: seq<(Op, real)>, edge: string, now: real, window: real): Rolling
    requires window > 0.0
  {
    RollingOver(At(Untrimmed(ops).entries, edge), At(Untrimmed(ops).samples, edge), window, now)
  }

  lemma LookWindow(ops: seq<(Op, real)>, edge: string, now: real, w: nat)
    requires UpTo(ops, now) && w < |WINDOWS|
    ensures |Look(ops, edge, now).windows| == |WINDOWS|
    ensures Look(ops, edge, now).windows[w] == FullWindow(ops, edge, now, WINDOWS[w])
  {
    RunsAgree(ops, now);
    LookIsExact(Trimmed(ops), Untrimmed(ops), edge, now, now, WINDOWS[w]);
  }

  lemma RollingRate(entries: seq<Timed<string>>, samples: seq<Timed<Sample>>, window: real, now: real, count: nat)
    requires window > 0.0 && |Since(entries, now - window)| == count
    ensures RollingOver(entries, samples, window, now).window == window
    ensures RollingOver(entries, samples, window, now).flow == count as real * 3600.0 / window
  {
  }

  lemma FullWindowFlow(ops: seq<(Op, real)>, edge: string, now: real, window: real, count: nat)
    requires window > 0.0 && count == |RecentArrivals(ops, edge, now - window)|
    ensures FullWindow(ops, edge, now, window).window == window
    ensures FullWindow(ops, edge, now, window).flow == count as real * 3600.0 / window
  {
    EntriesSince(ops, edge, now - window);
    RollingRate(At(Untrimmed(ops).entries, edge), At(Untrimmed(ops).samples, edge), window, now, count);
  }

  /** And that of each window the rate of those within it, whatever the order of the calls up to the look. */
  lemma WindowFlowIsArrivalRate(ops: seq<(Op, real)>, edge: string, now: real, w: nat, shown: EdgeState, window: real)
    requires UpTo(ops, now) && shown == Look(ops, edge, now) && w < |WINDOWS| && window == WINDOWS[w]
    ensures WINDOWS == [5.0, 15.0, 30.0, 60.0] && |shown.windows| == |WINDOWS| && shown.windows[w].window == window
    ensures shown.windows[w].flow == |RecentArrivals(ops, edge, now - window)| as real * 3600.0 / window
  {
    LookWindow(ops, edge, now, w);
    FullWindowFlow(ops, edge, now, window, |RecentArrivals(ops, edge, now - window)|);
  }

  // ---------------------------------------------------------------- the samples

  /** The latest state reported of a vehicle. */
  function LatestVehicle(ops: seq<(Op, real)>, id: string): Option<Vehicle> {
    if ops == [] then None
    else if ops[|ops| - 1].0.ObserveVehicle? && ops[|ops| - 1].0.id == id then Some(ops[|ops| - 1].0.v)
    else LatestVehicle(ops[..|ops| - 1], id)
  }

  /** Somebody was placed on the edge, or it was registered. */
  predicate Mentioned(op: Op, edge: string) {
    match op
    case ObserveVehicle(_, v) => v.segment == Some(edge)
    case ObservePedestrian(_, segment) => segment == Some(edge)
    case Register(e, _) => e == edge
    case _ => false
  }

  predicate KnownEdge(ops: seq<(Op, real)>, edge: string) {
    exists k :: 0 <= k < |ops| && Mentioned(ops[k].0, edge)
  }

  /** The k-th call measures the edge: an actor arrives there, stays or leaves, or the edge is registered or
      refreshed. */
  predicate Measures(ops: seq<(Op, real)>, k: nat, edge: string)
    requires k < |ops|
  {
    match ops[k].0
    case ObserveVehicle(id, v) => v.segment == Some(edge) || (edge != "" && Whereabouts(ops[..k], id) == Some(edge))
    case ObservePedestrian(id, segment) =>
      segment == Some(edge) || (edge != "" && Whereabouts(ops[..k], id) == Some(edge))
    case Register(e, _) => e == edge
    case Refresh(e) => e == edge && KnownEdge(ops[..k], edge)
    case Look(_) => false
  }

  /** The readings taken of an edge, in order. */
  function Readings(ops: seq<(Op, real)>, edge: string): seq<Timed<Sample>> {
    if ops == [] then []
    else
      var n := |ops| - 1;
      Readings(ops[..n], edge)
      + (if Measures(ops, n, edge) then [Timed(ops[n].1, SampleOf(Untrimmed(ops), edge))] else [])
  }

  lemma {:induction false} RecordAllSamples(full: Graph, edges: seq<string>, now: real, edge: string)
    requires !full.trimming && Distinct(edges)
    ensures
      var r := RecordAll(full, edges, now);
      && SampleOf(r, edge) == SampleOf(full, edge) && r.capacity == full.capacity
      && At(r.samples, edge) == At(full.samples, edge)
                                + (if edge in edges then [Timed(now, SampleOf(full, edge))] else [])
    decreases |edges|
  {
    if edges != [] {
      assert edges == [edges[0]] + edges[1..] && edges[0] !in edges[1..];
      RecordAllSamples(Record(full, edges[0], now), edges[1..], now, edge);
    }
  }

  lemma MoveSamples(full: Graph, id: string, segment: Option<string>, now: real, edge: string)
    requires !full.trimming
    ensures
      var r := Move(full, id, segment, now);
      && At(r.samples, edge) == At(full.samples, edge)
           + (if segment == Some(edge) || (edge != "" && Prior(full, id) == Some(edge))
              then [Timed(now, SampleOf(r, edge))] else [])
      && (edge in r.capacity.at <==> edge in full.capacity.at || segment == Some(edge))
  {
    AffectedIsSorted(segment, Prior(full, id));
    RecordAllSamples(Place(full, id, segment, now), Affected(segment, Prior(full, id)), now, edge);
  }

  ghost predicate Measured(ops: seq<(Op, real)>, full: Graph, edge: string) {
    && Follows(ops, full, edge) && At(full.samples, edge) == Readings(ops, edge)
    && (edge in full.capacity.at <==> KnownEdge(ops, edge))
  }

  lemma KnownSnoc(ops: seq<(Op, real)>, edge: string)
    requires ops != []
    ensures KnownEdge(ops, edge) <==> KnownEdge(ops[..|ops| - 1], edge) || Mentioned(ops[|ops| - 1].0, edge)
  {
    var n := |ops| - 1;
    if KnownEdge(ops[..n], edge) {
      var k :| 0 <= k < n && Mentioned(ops[..n][k].0, edge);
      assert Mentioned(ops[k].0, edge);
    }
    if KnownEdge(ops, edge) && !Mentioned(ops[n].0, edge) {
      var k :| 0 <= k < |ops| && Mentioned(ops[k].0, edge);
      assert ops[..n][k] == ops[k];
    }
  }

  lemma ObservationMeasures(ops: seq<(Op, real)>, full: Graph, stored: Graph, id: string, segment: Option<string>,
                            now: real, edge: string)
    requires ops != [] && Measured(ops[..|ops| - 1], full, edge) && ops[|ops| - 1].1 == now
    requires Observes(ops[|ops| - 1].0, id) && Placed(ops[|ops| - 1].0) == segment
    requires stored.actorEdges == full.actorEdges && stored.samples == full.samples && !stored.trimming
    requires stored.capacity == full.capacity && Untrimmed(ops) == Move(stored, id, segment, now)
    ensures At(Untrimmed(ops).samples, edge) == Readings(ops, edge)
    ensures edge in Untrimmed(ops).capacity.at <==> KnownEdge(ops, edge)
  {
    KnownSnoc(ops, edge);
    MoveSamples(stored, id, segment, now, edge);
    assert Prior(stored, id) == Prior(full, id) == Whereabouts(ops[..|ops| - 1], id);
  }

  lemma RecordSamples(full: Graph, e: string, now: real, edge: string)
    requires !full.trimming
    ensures
      var r := Record(full, e, now);
      && SampleOf(r, edge) == SampleOf(full, edge) && r.capacity == full.capacity
      && At(r.samples, edge) == At(full.samples, edge) + (if edge == e then [Timed(now, SampleOf(full, edge))] else [])
  {
  }

  /** Registering or refreshing measures the edge, a look does not. */
  lemma OtherCallSamples(full: Graph, op: Op, now: real, edge: string)
    requires !full.trimming && !op.ObserveVehicle? && !op.ObservePedestrian?
    ensures
      var r := Step(full, op, now);
      && At(r.samples, edge) == At(full.samples, edge)
           + (if (op.Register? && op.edge == edge) || (op.Refresh? && op.edge == edge && edge in full.capacity.at)
              then [Timed(now, SampleOf(r, edge))] else [])
      && (edge in r.capacity.at <==> edge in full.capacity.at || (op.Register? && op.edge == edge))
  {
    match op
    case Register(e, capacity) => RecordSamples(full.(capacity := full.capacity.Put(e, capacity)), e, now, edge);
    case Refresh(e) => RecordSamples(full, e, now, edge);
    case Look(_) =>
  }

  lemma OtherCallMeasures(ops: seq<(Op, real)>, full: Graph, r: Graph, edge: string)
    requires ops != [] && Measured(ops[..|ops| - 1], full, edge) && r == Untrimmed(ops)
    requires !ops[|ops| - 1].0.ObserveVehicle? && !ops[|ops| - 1].0.ObservePedestrian?
    requires r == Step(full, ops[|ops| - 1].0, ops[|ops| - 1].1)
    ensures At(r.samples, edge) == Readings(ops, edge)
    ensures edge in r.capacity.at <==> KnownEdge(ops, edge)
  {
    KnownSnoc(ops, edge);
    OtherCallSamples(full, ops[|ops| - 1].0, ops[|ops| - 1].1, edge);
  }

  lemma StepMeasures(ops: seq<(Op, real)>, edge: string)
    requires ops != [] && Measured(ops[..|ops| - 1], Untrimmed(ops[..|ops| - 1]), edge)
    ensures At(Untrimmed(ops).samples, edge) == Readings(ops, edge)
    ensures edge in Untrimmed(ops).capacity.at <==> KnownEdge(ops, edge)
  {
    var full := Untrimmed(ops[..|ops| - 1]);
    var (op, now) := ops[|ops| - 1];
    match op
    case ObserveVehicle(id, v) =>
      ObservationMeasures(ops, full, full.(vehicles := full.vehicles.Put(id, v)), id, v.segment, now, edge);
    case ObservePedestrian(id, segment) =>
      ObservationMeasures(ops, full, full.(pedestrians := full.pedestrians[id := segment]), id, segment, now, edge);
    case _ => OtherCallMeasures(ops, full, Untrimmed(ops), edge);
  }

  /** Over any run the untrimmed samples of an edge are exactly its readings, one for every call that measures it. */
  lemma {:induction false} SamplesAreReadings(ops: seq<(Op, real)>, edge: string)
    ensures Measured(ops, Untrimmed(ops), edge)
    ensures At(Untrimmed(ops).samples, edge) == Readings(ops, edge)
  {
    EntriesAreArrivals(ops, edge);
    if ops != [] {
      SamplesAreReadings(ops[..|ops| - 1], edge);
      StepMeasures(ops, edge);
    }
  }

  // ---------------------------------------------------------------- what a reading says

  ghost predicate Fleet(ops: seq<(Op, real)>, vehicles: Dict<string, Vehicle>) {
    && vehicles.Ok()
    && forall id :: (if id in vehicles.at then Some(vehicles.at[id]) else None) == LatestVehicle(ops, id)
  }

  lemma MoveKeepsVehicles(g: Graph, id: string, segment: Option<string>, now: real)
    ensures Move(g, id, segment, now).vehicles == g.vehicles
  {
    RecordAllKeeps(Place(g, id, segment, now), Affected(segment, Prior(g, id)), now);
  }

  lemma FleetNext(ops: seq<(Op, real)>, before: Dict<string, Vehicle>)
    requires ops != [] && Fleet(ops[..|ops| - 1], before)
    ensures
      var op := ops[|ops| - 1].0;
      Fleet(ops, if op.ObserveVehicle? then before.Put(op.id, op.v) else before)
  {
    var op := ops[|ops| - 1].0;
    if op.ObserveVehicle? {
      before.PutOk(op.id, op.v);
    }
  }

  lemma StepVehicles(g: Graph, op: Op, now: real)
    ensures Step(g, op, now).vehicles == if op.ObserveVehicle? then g.vehicles.Put(op.id, op.v) else g.vehicles
  {
    match op
    case ObserveVehicle(id, v) => MoveKeepsVehicles(g.(vehicles := g.vehicles.Put(id, v)), id, v.segment, now);
    case ObservePedestrian(id, segment) =>
      MoveKeepsVehicles(g.(pedestrians := g.pedestrians[id := segment]), id, segment, now);
    case _ =>
  }

  /** The service knows the latest state of every vehicle. */
  lemma {:induction false} VehiclesAreLatest(ops: seq<(Op, real)>)
    ensures Fleet(ops, Untrimmed(ops).vehicles)
  {
    if ops != [] {
      var n := |ops| - 1;
      VehiclesAreLatest(ops[..n]);
      FleetNext(ops, Untrimmed(ops[..n]).vehicles);
      StepVehicles(Untrimmed(ops[..n]), ops[n].0, ops[n].1);
    }
  }

  function Among(vehicles: Dict<string, Vehicle>, ids: seq<string>, edge: string): set<string> {
    set id | id in ids && id in vehicles.at && vehicles.at[id].segment == Some(edge)
  }

  function SlowAmong(vehicles: Dict<string, Vehicle>, ids: seq<string>, edge: string): set<string> {
    set id | id in Among(vehicles, ids, edge) && vehicles.at[id].speed <= 2.0
  }

  lemma {:induction false} VehiclesOnCount(vehicles: Dict<string, Vehicle>, ids: seq<string>, edge: string)
    requires Distinct(ids)
    ensures |VehiclesOn(vehicles, ids, edge)| == |Among(vehicles, ids, edge)|
    ensures Queued(VehiclesOn(vehicles, ids, edge)) == |SlowAmong(vehicles, ids, edge)|
  {
    if ids == [] {
      assert Among(vehicles, ids, edge) == {} && SlowAmong(vehicles, ids, edge) == {};
    } else {
      var n := |ids| - 1;
      VehiclesOnCount(vehicles, ids[..n], edge);
      AmongSnoc(vehicles, ids, edge);
    }
  }

  lemma AmongSnoc(vehicles: Dict<string, Vehicle>, ids: seq<string>, edge: string)
    requires Distinct(ids) && ids != []
    ensures
      var (id, before) := (ids[|ids| - 1], ids[..|ids| - 1]);
      var here := id in vehicles.at && vehicles.at[id].segment == Some(edge);
      && id !in Among(vehicles, before, edge) && id !in SlowAmong(vehicles, before, edge)
      && Among(vehicles, ids, edge) == Among(vehicles, before, edge) + (if here then {id} else {})
      && SlowAmong(vehicles, ids, edge) ==
         SlowAmong(vehicles, before, edge) + (if here && vehicles.at[id].speed <= 2.0 then {id} else {})
  {
    assert ids == ids[..|ids| - 1] + [ids[|ids| - 1]];
  }

  lemma {:induction false} VehiclesOnMembers(vehicles: Dict<string, Vehicle>, ids: seq<string>, edge: string)
    ensures forall v :: v in VehiclesOn(vehicles, ids, edge) ==>
              exists id :: id in vehicles.at && vehicles.at[id] == v && v.segment == Some(edge)
  {
    if ids != [] {
      VehiclesOnMembers(vehicles, ids[..|ids| - 1], edge);
    }
  }

  ghost predicate AllBetween(here: seq<Vehicle>, low: real, high: real) {
    forall i :: 0 <= i < |here| ==> low <= here[i].speed <= high
  }

  lemma {:induction false} TotalBetween(here: seq<Vehicle>, low: real, high: real)
    requires AllBetween(here, low, high)
    ensures |here| as real * low <= SpeedTotal(here) <= |here| as real * high
  {
    if here != [] {
      var n := |here| - 1;
      assert here[n].speed <= high;
      TotalBetween(here[..n], low, high);
      OneMore(n as real, low);
      OneMore(n as real, high);
    }
  }

  lemma OneMore(n: real, x: real)
    ensures (n + 1.0) * x == n * x + x
  {
  }

  lemma QuotientBetween(low: real, total: real, high: real, n: real)
    requires n > 0.0 && n * low <= total <= n * high
    ensures low <= total / n <= high
  {
    assert total / n * n == total;
  }

  lemma {:induction false} TotalOfBetween<T>(items: seq<Timed<T>>, of: T -> real, low: real, high: real)
    requires forall i :: 0 <= i < |items| ==> low <= of(items[i].value) <= high
    ensures |items| as real * low <= Total(items, of) <= |items| as real * high
  {
    if items != [] {
      assert low <= of(items[0].value) <= high;
      TotalOfBetween(items[1..], of, low, high);
      OneMore(|items[1..]| as real, low);
      OneMore(|items[1..]| as real, high);
    }
  }

  /** A mean lies between the least and the greatest value, and is zero of nothing. */
  lemma MeanOfBetween<T>(items: seq<Timed<T>>, of: T -> real, low: real, high: real)
    requires forall i :: 0 <= i < |items| ==> low <= of(items[i].value) <= high
    ensures if items == [] then Mean(items, of) == 0.0 else low <= Mean(items, of) <= high
  {
    if items != [] {
      TotalOfBetween(items, of, low, high);
      QuotientBetween(low, Total(items, of), high, |items| as real);
    }
  }

  /** The readings taken since the cutoff. */
  function RecentReadings(ops: seq<(Op, real)>, edge: string, cutoff: real): set<nat> {
    set k: nat | k < |ops| && Measures(ops, k, edge) && ops[k].1 >= cutoff
  }

  lemma RecentReadingsSnoc(ops: seq<(Op, real)>, edge: string, cutoff: real)
    requires ops != []
    ensures
      var n := |ops| - 1;
      && RecentReadings(ops, edge, cutoff) ==
         RecentReadings(ops[..n], edge, cutoff) + (if Measures(ops, n, edge) && ops[n].1 >= cutoff then {n} else {})
      && n !in RecentReadings(ops[..n], edge, cutoff)
  {
    var n := |ops| - 1;
    forall k: nat | k < n
      ensures Measures(ops[..n], k, edge) == Measures(ops, k, edge)
    {
      assert ops[..n][..k] == ops[..k];
    }
  }

  lemma {:induction false} ReadingsSince(ops: seq<(Op, real)>, edge: string, cutoff: real)
    ensures |Since(Readings(ops, edge), cutoff)| == |RecentReadings(ops, edge, cutoff)|
  {
    if ops == [] {
      assert RecentReadings(ops, edge, cutoff) == {};
    } else {
      var n := |ops| - 1;
      ReadingsSince(ops[..n], edge, cutoff);
      RecentReadingsSnoc(ops, edge, cutoff);
      if Measures(ops, n, edge) {
        var taken := Timed(ops[n].1, SampleOf(Untrimmed(ops), edge));
        SinceSnoc(Readings(ops[..n], edge), taken, cutoff);
        assert Readings(ops, edge) == Readings(ops[..n], edge) + [taken];
      } else {
        assert Readings(ops, edge) == Readings(ops[..n], edge);
      }
    }
  }

  lemma SamplesSince(ops: seq<(Op, real)>, edge: string, cutoff: real)
    ensures |Since(At(Untrimmed(ops).samples, edge), cutoff)| == |RecentReadings(ops, edge, cutoff)|
  {
    SamplesAreReadings(ops, edge);
    ReadingsSince(ops, edge, cutoff);
  }

  /** Every window counts the readings within it, and its means lie between the least and the greatest of them. */
  lemma WindowSummarisesReadings(ops: seq<(Op, real)>, edge: string, now: real, w: nat, shown: EdgeState, window: real,
                                 low: Sample, high: Sample)
    requires UpTo(ops, now) && shown == Look(ops, edge, now) && w < |WINDOWS| && window == WINDOWS[w]
    requires Bracketed(Since(At(Untrimmed(ops).samples, edge), now - window), low, high)
    ensures |shown.windows| == |WINDOWS|
    ensures
      var r := shown.windows[w];
      && r.samples == |RecentReadings(ops, edge, now - window)|
      && (r.samples == 0 ==> r.vehicles == r.speed == r.queued == r.occupancy == 0.0)
      && (r.samples > 0 ==>
            && low.vehicles as real <= r.vehicles <= high.vehicles as real && low.speed <= r.speed <= high.speed
            && low.queued as real <= r.queued <= high.queued as real && low.occupancy <= r.occupancy <= high.occupancy)
  {
    LookWindow(ops, edge, now, w);
    SamplesSince(ops, edge, now - window);
    MeansBetween(At(Untrimmed(ops).entries, edge), At(Untrimmed(ops).samples, edge), window, now, low, high);
  }

  /** Each part of each sample lies between those of `low` and `high`. */
  ghost predicate Bracketed(samples: seq<Timed<Sample>>, low: Sample, high: Sample) {
    forall i {:trigger samples[i]} :: 0 <= i < |samples| ==>
      var s := samples[i].value;
      && low.vehicles <= s.vehicles <= high.vehicles && low.speed <= s.speed <= high.speed
      && low.queued <= s.queued <= high.queued && low.occupancy <= s.occupancy <= high.occupancy
  }

  lemma MeansBetween(entries: seq<Timed<string>>, samples: seq<Timed<Sample>>, window: real, now: real, low: Sample,
                     high: Sample)
    requires window > 0.0 && Bracketed(Since(samples, now - window), low, high)
    ensures
      var (r, subset) := (RollingOver(entries, samples, window, now), Since(samples, now - window));
      && r.samples == |subset|
      && (subset == [] ==> r.vehicles == r.speed == r.queued == r.occupancy == 0.0)
      && (subset != [] ==>
            && low.vehicles as real <= r.vehicles <= high.vehicles as real && low.speed <= r.speed <= high.speed
            && low.queued as real <= r.queued <= high.queued as real && low.occupancy <= r.occupancy <= high.occupancy)
  {
    var subset := Since(samples, now - window);
    MeanOfBetween(subset, (s: Sample) => s.vehicles as real, low.vehicles as real, high.vehicles as real);
    MeanOfBetween(subset, (s: Sample) => s.speed, low.speed, high.speed);
    MeanOfBetween(subset, (s: Sample) => s.queued as real, low.queued as real, high.queued as real);
    MeanOfBetween(subset, (s: Sample) => s.occupancy, low.occupancy, high.occupancy);
  }

  /** The vehicles last reported on the edge. */
  ghost predicate ReportedOn(ops: seq<(Op, real)>, edge: string, id: string) {
    LatestVehicle(ops, id).Some? && LatestVehicle(ops, id).value.segment == Some(edge)
  }

  /** The capacity last registered, if it is one. */
  function RegisteredCapacity(ops: seq<(Op, real)>, edge: string): int {
    if ops == [] then 20
    else
      var op := ops[|ops| - 1].0;
      if op.Register? && op.edge == edge then (if op.capacity >= 1 then op.capacity else 20)
      else RegisteredCapacity(ops[..|ops| - 1], edge)
  }

  lemma {:induction false} CapacityIsRegistered(ops: seq<(Op, real)>, edge: string)
    ensures Capacity(Untrimmed(ops), edge) == RegisteredCapacity(ops, edge)
  {
    if ops != [] {
      var n := |ops| - 1;
      CapacityIsRegistered(ops[..n], edge);
      StepCapacity(Untrimmed(ops[..n]), ops[n].0, ops[n].1, edge);
    }
  }

  lemma {:induction false} RecordAllCapacity(g: Graph, edges: seq<string>, now: real)
    ensures RecordAll(g, edges, now).capacity == g.capacity
    decreases |edges|
  {
    if edges != [] {
      RecordAllCapacity(Record(g, edges[0], now), edges[1..], now);
    }
  }

  lemma MoveCapacity(g: Graph, id: string, segment: Option<string>, now: real, edge: string)
    ensures Capacity(Move(g, id, segment, now), edge) == Capacity(g, edge)
  {
    RecordAllCapacity(Place(g, id, segment, now), Affected(segment, Prior(g, id)), now);
  }

  lemma StepCapacity(g: Graph, op: Op, now: real, edge: string)
    ensures Capacity(Step(g, op, now), edge) ==
            if op.Register? && op.edge == edge then (if op.capacity >= 1 then op.capacity else 20)
            else Capacity(g, edge)
  {
    match op
    case ObserveVehicle(id, v) =>
      MoveCapacity(g.(vehicles := g.vehicles.Put(id, v)), id, v.segment, now, edge);
    case ObservePedestrian(id, segment) =>
      MoveCapacity(g.(pedestrians := g.pedestrians[id := segment]), id, segment, now, edge);
    case _ =>
  }

  /** A reading counts the vehicles last reported on the edge and those at two metres per second or less among them,
      relates them to the registered capacity, and gives their mean speed. */
  lemma ReadingCounts(ops: seq<(Op, real)>, edge: string, on: set<string>, slow: set<string>)
    requires forall id :: id in on <==> ReportedOn(ops, edge, id)
    requires forall id :: id in slow <==> ReportedOn(ops, edge, id) && LatestVehicle(ops, id).value.speed <= 2.0
    ensures
      var reading := SampleOf(Untrimmed(ops), edge);
      && reading.vehicles == |on| && reading.queued == |slow|
      && RegisteredCapacity(ops, edge) >= 1
      && reading.occupancy == MinReal(1.0, |on| as real / RegisteredCapacity(ops, edge) as real)
  {
    var vehicles := Untrimmed(ops).vehicles;
    VehiclesAreLatest(ops);
    CapacityIsRegistered(ops, edge);
    VehiclesOnCount(vehicles, vehicles.keys, edge);
    assert Among(vehicles, vehicles.keys, edge) == on;
    assert SlowAmong(vehicles, vehicles.keys, edge) == slow;
  }

  lemma MeanBetween(here: seq<Vehicle>, low: real, high: real)
    requires here != [] && AllBetween(here, low, high)
    ensures low <= SpeedTotal(here) / |here| as real <= high
  {
    TotalBetween(here, low, high);
    QuotientBetween(low, SpeedTotal(here), high, |here| as real);
  }

  /** The speed of a reading lies between the slowest and the fastest on the edge; it is zero on an empty one. */
  lemma ReadingSpeedIsMean(ops: seq<(Op, real)>, edge: string, low: real, high: real)
    requires forall id :: ReportedOn(ops, edge, id) ==> low <= LatestVehicle(ops, id).value.speed <= high
    ensures
      var reading := SampleOf(Untrimmed(ops), edge);
      if reading.vehicles == 0 then reading.speed == 0.0 else low <= reading.speed <= high
  {
    var vehicles := Untrimmed(ops).vehicles;
    var here := VehiclesOn(vehicles, vehicles.keys, edge);
    VehiclesAreLatest(ops);
    VehiclesOnMembers(vehicles, vehicles.keys, edge);
    forall i | 0 <= i < |here|
      ensures low <= here[i].speed <= high
    {
      assert here[i] in here;
      var id :| id in vehicles.at && vehicles.at[id] == here[i] && here[i].segment == Some(edge);
      assert ReportedOn(ops, edge, id);
    }
    if here != [] {
      MeanBetween(here, low, high);
    }
  }

  // ---------------------------------------------------------------- what calls return

  lemma {:induction false} TrimTwice<T>(items: seq<Timed<T>>, cutoff: real)
    ensures Trim(Trim(items, cutoff), cutoff) == Trim(items, cutoff)
  {
    if items != [] && items[0].time < cutoff {
      TrimTwice(items[1..], cutoff);
    }
  }

  lemma RecordedShowsLook(g: Graph, edge: string, now: real)
    ensures ShownRecorded(g, edge, now) == LookAt(Record(g, edge, now), edge, now)
  {
    if g.trimming {
      TrimTwice(At(g.entries, edge), now - LONGEST);
      TrimTwice(Trim(At(g.entries, edge), now - LONGEST), now - LONGEST);
      TrimTwice(Trim(At(g.samples, edge), now - LONGEST) + [Timed(now, SampleOf(g, edge))], now - LONGEST);
    }
  }

  /** Recording other edges changes nothing that a look at this one shows. */
  lemma {:induction false} RecordingOthers(g: Graph, edges: seq<string>, now: real, edge: string)
    requires edge !in edges
    ensures LookAt(RecordAll(g, edges, now), edge, now) == LookAt(g, edge, now)
    decreases |edges|
  {
    if edges != [] {
      assert edges[0] != edge && edge !in edges[1..];
      RecordingOther(g, edges[0], now, edge);
      RecordingOthers(Record(g, edges[0], now), edges[1..], now, edge);
    }
  }

  lemma RecordingOther(g: Graph, other: string, now: real, edge: string)
    requires edge != other
    ensures LookAt(Record(g, other, now), edge, now) == LookAt(g, edge, now)
  {
    var r := Record(g, other, now);
    assert At(r.entries, edge) == At(g.entries, edge) && At(r.samples, edge) == At(g.samples, edge);
    assert SampleOf(r, edge) == SampleOf(g, edge);
  }

  lemma FirstShown(g: Graph, edges: seq<string>, now: real)
    requires edges != []
    ensures RecordAll(g, edges, now) == RecordAll(Record(g, edges[0], now), edges[1..], now)
    ensures ShownAlong(g, edges, now) ==
            [ShownRecorded(g, edges[0], now)] + ShownAlong(Record(g, edges[0], now), edges[1..], now)
  {
  }

  /** Each state shown is what a look shows once all are recorded. */
  ghost predicate ShowsLooks(shown: seq<EdgeState>, r: Graph, edges: seq<string>, now: real) {
    |shown| == |edges| && forall i :: 0 <= i < |edges| ==> shown[i] == LookAt(r, edges[i], now)
  }

  lemma LooksCons(first: EdgeState, later: seq<EdgeState>, r: Graph, edge: string, rest: seq<string>, now: real)
    requires first == LookAt(r, edge, now) && ShowsLooks(later, r, rest, now)
    ensures ShowsLooks([first] + later, r, [edge] + rest, now)
  {
  }

  lemma {:induction false} ShownAlongShowsLooks(g: Graph, edges: seq<string>, now: real)
    requires Distinct(edges)
    ensures ShowsLooks(ShownAlong(g, edges, now), RecordAll(g, edges, now), edges, now)
    decreases |edges|
  {
    if edges != [] {
      var next, rest := Record(g, edges[0], now), edges[1..];
      assert edges == [edges[0]] + rest && edges[0] !in rest;
      FirstShown(g, edges, now);
      ShownAlongShowsLooks(next, rest, now);
      RecordedShowsLook(g, edges[0], now);
      RecordingOthers(next, rest, now, edges[0]);
      LooksCons(ShownRecorded(g, edges[0], now), ShownAlong(next, rest, now), RecordAll(next, rest, now), edges[0],
                rest, now);
    }
  }

  /** The states that observing an actor returns are what a look at those edges at the same moment shows. */
  lemma ObservationShowsLooks(g: Graph, id: string, segment: Option<string>, now: real)
    ensures
      var edges := Affected(segment, Prior(g, id));
      ShowsLooks(ShownAlong(Place(g, id, segment, now), edges, now), Move(g, id, segment, now), edges, now)
  {
    AffectedIsSorted(segment, Prior(g, id));
    ShownAlongShowsLooks(Place(g, id, segment, now), Affected(segment, Prior(g, id)), now);
  }

  /** A look drops old samples for good: one that comes too early, after a look far ahead, misses the sample. */
  lemma LateLookLosesSample(ops: seq<(Op, real)>, edge: string, now: real, latest: real)
    requires latest > now + LONGEST && ops == [(Register(edge, 1), now), (MobilityWindows.Look(edge), latest)]
    ensures At(Trimmed(ops).samples, edge) == [] && |At(Untrimmed(ops).samples, edge)| == 1
  {
    LateLook(EmptyGraph(true), edge, now, latest);
    LateLook(EmptyGraph(false), edge, now, latest);
    TwoSteps(EmptyGraph(true), ops);
    TwoSteps(EmptyGraph(false), ops);
  }

  lemma LateLook(empty: Graph, edge: string, now: real, latest: real)
    requires empty == EmptyGraph(empty.trimming) && latest > now + LONGEST
    ensures
      var r := Step(Step(empty, Register(edge, 1), now), MobilityWindows.Look(edge), latest);
      |At(r.samples, edge)| == if empty.trimming then 0 else 1
  {
    var registered := empty.(capacity := empty.capacity.Put(edge, 1));
    var first := Timed(now, SampleOf(registered, edge));
    assert Trim([first], now - LONGEST) == [first];
    assert At(Step(empty, Register(edge, 1), now).samples, edge) == [first];
    assert Trim([first], latest - LONGEST) == [];
  }
}
