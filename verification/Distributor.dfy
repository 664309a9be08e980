/** The cooperative distributor: one planning cycle that shares load between rerouted vehicles. */
module Distributor {
  import opened Basics
  import opened RoadGraph
  import opened Routes
  import Pathfinder

  const LOAD_CAPACITY_FRACTION := 0.75
  const K_ALTERNATIVES := 3

  datatype Trip = Trip(vehicle: string, origin: NodeId, destination: NodeId)

  datatype Alternative = Alternative(path: Path, cost: Cost)

  datatype Assignment = Assignment(
    vehicle: string,
    oldPath: Path,
    newPath: Path,
    oldEta: real,
    newEta: real,
    oldCost: Cost,
    newCost: Cost,
    reason: Reason,
    triggered: bool)

  // ---------------------------------------------------------------- per-path checks

  function StepEdge(g: Graph, step: PathStep): Option<Edge> {
    if step.via.Some? && step.via.value in g.edges then Some(g.edges[step.via.value]) else None
  }

  function EdgeForces(e: Edge): Reason {
    if e.metrics.closure then Closure
    else if e.metrics.hazardPenalty >= CRITICAL_HAZARD_THRESHOLD then CriticalHazard
    else NoReason
  }

  function StepForces(g: Graph, step: PathStep): Reason {
    match StepEdge(g, step)
    case None => NoReason
    case Some(e) => EdgeForces(e)
  }

  /** Nothing on the path demands a reroute by itself. */
  ghost predicate Unforced(g: Graph, path: Path) {
    forall i :: 0 <= i < |path| && path[i].via.Some? && path[i].via.value in g.edges ==>
                  var m := g.edges[path[i].via.value].metrics;
                  !m.closure && m.hazardPenalty < 0.7
  }

  /** The reason of the first step that demands a reroute. */
  function FirstForce(g: Graph, path: Path): (reason: Reason)
    ensures reason == NoReason <==> Unforced(g, path)
    ensures reason != NoReason ==>
              exists i :: 0 <= i < |path| && reason == StepForces(g, path[i]) && Unforced(g, path[..i])
    ensures reason in {NoReason, Closure, CriticalHazard}
  {
    if path == [] then NoReason
    else
      var n := |path| - 1;
      var before := FirstForce(g, path[..n]);
      if before != NoReason then
        assert forall i :: 0 <= i < n ==> path[..n][..i] == path[..i];
        before
      else
        assert path[..n] + [path[n]] == path;
        StepForces(g, path[n])
  }

  /** The first closed or critically hazardous edge decides. */
  method CheckTrigger(g: Graph, path: Path) returns (reason: Reason)
    ensures reason == FirstForce(g, path)
  {
    for i := 0 to |path|
      invariant FirstForce(g, path[..i]) == NoReason
    {
      assert path[..i + 1][..i] == path[..i];
      var forced := StepForces(g, path[i]);
      if forced != NoReason {
        FirstForceDecides(g, path, i + 1);
        return forced;
      }
    }
    assert path[..|path|] == path;
    return NoReason;
  }

  lemma {:induction false} FirstForceDecides(g: Graph, path: Path, i: nat)
    requires i <= |path| && FirstForce(g, path[..i]) != NoReason
    ensures FirstForce(g, path) == FirstForce(g, path[..i])
  {
    if i < |path| {
      assert path[..|path| - 1][..i] == path[..i];
      FirstForceDecides(g, path[..|path| - 1], i);
    } else {
      assert path[..i] == path;
    }
  }

  method MaxHazard(g: Graph, path: Path) returns (hazard: real)
    ensures hazard >= 0.0
    ensures forall i :: 0 <= i < |path| && StepEdge(g, path[i]).Some? ==>
                          StepEdge(g, path[i]).value.metrics.hazardPenalty <= hazard
    ensures hazard > 0.0 ==> exists i :: 0 <= i < |path| && StepEdge(g, path[i]).Some? &&
                                         StepEdge(g, path[i]).value.metrics.hazardPenalty == hazard
  {
    hazard := 0.0;
    for k := 0 to |path|
      invariant hazard >= 0.0
      invariant forall i :: 0 <= i < k && StepEdge(g, path[i]).Some? ==>
                              StepEdge(g, path[i]).value.metrics.hazardPenalty <= hazard
      invariant hazard > 0.0 ==> exists i :: 0 <= i < k && StepEdge(g, path[i]).Some? &&
                                             StepEdge(g, path[i]).value.metrics.hazardPenalty == hazard
    {
      var edge := StepEdge(g, path[k]);
      if edge.Some? {
        hazard := MaxReal(hazard, edge.value.metrics.hazardPenalty);
      }
    }
  }

  predicate EdgeFits(e: Edge, load: int) {
    (e.metrics.vehicleCount + load) as real <= e.capacity as real * LOAD_CAPACITY_FRACTION
  }

  ghost predicate Fits(g: Graph, path: Path, loads: Loads) {
    forall i :: 0 <= i < |path| && path[i].via.Some? && path[i].via.value in g.edges ==>
                  EdgeFits(g.edges[path[i].via.value], LoadAt(loads, path[i].via.value))
  }

  method FitsCapacity(g: Graph, path: Path, loads: Loads) returns (fits: bool)
    ensures fits <==> Fits(g, path, loads)
  {
    for k := 0 to |path|
      invariant Fits(g, path[..k], loads)
    {
      if path[k].via.Some? && path[k].via.value in g.edges {
        if !EdgeFits(g.edges[path[k].via.value], LoadAt(loads, path[k].via.value)) {
          return false;
        }
      }
    }
    assert path[..|path|] == path;
    return true;
  }

  // ---------------------------------------------------------------- saturation

  /** An edge loaded up to its capacity no longer fits. */
  predicate SaturationBlocks(e: Edge) {
    0 <= e.capacity && !EdgeFits(e, e.capacity)
  }

  /** The loads a planning cycle can put on an edge: none, or one more than a load that fitted. */
  ghost predicate AttainableLoad(e: Edge, load: nat) {
    load == 0 || EdgeFits(e, load - 1)
  }

  /** "Saturating" an edge at its capacity never lowers its load exactly when the saturated edge is
      over the cap; for a capacity of 0 and no vehicles it would lower a load of 1. */
  lemma SaturationNeverLowersIff(e: Edge)
    ensures (forall load: nat :: AttainableLoad(e, load) ==> load <= e.capacity) <==> SaturationBlocks(e)
  {
    if e.capacity < 0 {
      assert AttainableLoad(e, 0);
    } else if EdgeFits(e, e.capacity) {
      assert AttainableLoad(e, e.capacity + 1);
    }
    if SaturationBlocks(e) {
      forall load: nat | AttainableLoad(e, load)
        ensures load <= e.capacity
      {
        if load > 0 {
          assert (e.metrics.vehicleCount + load - 1) as real < (e.metrics.vehicleCount + e.capacity) as real;
        }
      }
    }
  }

  lemma PositiveCapacityBlocks(e: Edge)
    requires e.capacity >= 1 && e.metrics.vehicleCount >= 0
    ensures SaturationBlocks(e)
  {
    assert (e.metrics.vehicleCount + e.capacity) as real >= e.capacity as real;
  }

  ghost predicate SafeGraph(g: Graph) {
    g.Keyed() && forall id :: id in g.edges ==> SaturationBlocks(g.edges[id])
  }

  /** No load that fits exceeds the capacity. */
  ghost predicate FitsWithinCapacity(e: Edge) {
    forall load: nat {:trigger EdgeFits(e, load)} :: EdgeFits(e, load) ==> load <= e.capacity
  }

  /** That is so exactly when the least load past the capacity does not fit. */
  lemma FitsWithinCapacityIff(e: Edge)
    ensures FitsWithinCapacity(e) <==> !EdgeFits(e, if e.capacity >= 0 then e.capacity + 1 else 0)
  {
    var past: nat := if e.capacity >= 0 then e.capacity + 1 else 0;
    forall load: nat | EdgeFits(e, load) && load > e.capacity
      ensures EdgeFits(e, past)
    {
      assert (e.metrics.vehicleCount + past) as real <= (e.metrics.vehicleCount + load) as real;
    }
    if EdgeFits(e, past) {
      assert past > e.capacity;
    }
  }

  /** It holds wherever vehicle counts are counts, whatever the capacity. */
  lemma CountsFitWithinCapacity(e: Edge)
    requires e.metrics.vehicleCount >= 0
    ensures FitsWithinCapacity(e)
  {
    forall load: nat | EdgeFits(e, load)
      ensures load <= e.capacity
    {
      assert load as real <= (e.metrics.vehicleCount + load) as real;
      assert load as real <= e.capacity as real * LOAD_CAPACITY_FRACTION;
      assert e.capacity >= 0;
    }
  }

  ghost predicate HonestGraph(g: Graph) {
    forall id :: id in g.edges ==> FitsWithinCapacity(g.edges[id])
  }

  ghost predicate AttainableLoads(g: Graph, loads: Loads) {
    && (forall id :: id in g.edges ==> LoadAt(loads, id) >= 0)
    && (forall id :: id in g.edges && LoadAt(loads, id) > 0 ==> EdgeFits(g.edges[id], LoadAt(loads, id) - 1))
  }

  lemma SaturatingOnlyRaises(g: Graph, loads: Loads, id: EdgeId, path: Path)
    requires SafeGraph(g) && AttainableLoads(g, loads) && id in g.edges
    ensures PathCost(g, path, loads).Leq(PathCost(g, path, loads[id := g.edges[id].capacity]))
  {
    var e := g.edges[id];
    SaturationNeverLowersIff(e);
    assert AttainableLoad(e, LoadAt(loads, id));
    PathCostMonotone(g, path, loads, loads[id := e.capacity]);
  }

  /** On a path that fits, saturating one edge only raises the cost: an edge of the path holds no more than its
      capacity, and other edges do not matter. */
  lemma SaturatingFittingPathOnlyRaises(g: Graph, loads: Loads, id: EdgeId, path: Path)
    requires HonestGraph(g) && AttainableLoads(g, loads) && Fits(g, path, loads) && id in g.edges
    ensures PathCost(g, path, loads).Leq(PathCost(g, path, loads[id := g.edges[id].capacity]))
  {
    var high := loads[id := g.edges[id].capacity];
    forall i | 0 <= i < |path| && path[i].via.Some? && path[i].via.value in g.edges
      ensures LoadAt(loads, path[i].via.value) <= LoadAt(high, path[i].via.value)
    {
      if path[i].via.value == id {
        assert EdgeFits(g.edges[id], LoadAt(loads, id));
        assert FitsWithinCapacity(g.edges[id]);
      }
    }
    PathCostMonotoneOn(g, path, loads, high);
  }

  // ---------------------------------------------------------------- alternatives

  /** An offered alternative is a simple route whose stated cost was computed under the current loads
      with at most one edge saturated. */
  ghost predicate Offered(g: Graph, origin: NodeId, destination: NodeId, loads: Loads, a: Alternative) {
    && IsRoute(g, a.path, origin, destination) && Simple(a.path)
    && (a.cost == PathCost(g, a.path, loads)
        || exists id :: id in g.edges && a.cost == PathCost(g, a.path, loads[id := g.edges[id].capacity]))
  }

  lemma OfferedCostNeverUnderstates(g: Graph, origin: NodeId, destination: NodeId, loads: Loads, a: Alternative)
    requires SafeGraph(g) && AttainableLoads(g, loads) && Offered(g, origin, destination, loads, a)
    ensures PathCost(g, a.path, loads).Leq(a.cost)
  {
    if a.cost != PathCost(g, a.path, loads) {
      var id :| id in g.edges && a.cost == PathCost(g, a.path, loads[id := g.edges[id].capacity]);
      SaturatingOnlyRaises(g, loads, id, a.path);
    }
  }

  /** An open edge without capacity or vehicles and with a ratio below one: a first vehicle makes it dearer, and
      "saturating" it takes that vehicle off again. */
  predicate Hollow(e: Edge) {
    e.capacity == 0 && e.metrics.vehicleCount == 0 && e.metrics.capacityRatio < 1.0 && !Impassable(e.metrics)
  }

  predicate Sane(e: Edge) {
    e.capacity >= 0 && e.metrics.vehicleCount >= 0 && e.metrics.capacityRatio >= 0.0
  }

  lemma PartialCongestion(ratio: real)
    requires ratio < 1.0
    ensures CongestionPenalty(ratio) < CONGESTION_SCALE == CongestionPenalty(1.0)
  {
    if ratio > CONGESTION_THRESHOLD {
      var x := (ratio - CONGESTION_THRESHOLD) / (1.0 - CONGESTION_THRESHOLD);
      assert 0.0 < x < 1.0;
      assert x * x < 1.0;
    }
  }

  lemma HollowIsCheaperEmpty(e: Edge)
    requires Hollow(e) && Sane(e)
    ensures AttainableLoad(e, 1) && EdgeCost(e, 0) < EdgeCost(e, 1)
  {
    assert EdgeFits(e, 0);
    assert LoadRatio(0, 0) == 0.0 && LoadRatio(1, 0) == 1.0;
    PartialCongestion(e.metrics.capacityRatio);
  }

  lemma FullCostsTheSame(e: Edge, load: nat)
    requires Sane(e) && (e.metrics.capacityRatio >= 1.0 || Impassable(e.metrics))
    ensures EdgeCost(e, load) == EdgeCost(e, e.capacity)
  {
    LoadRatioMonotone(0, load, e.capacity);
    LoadRatioMonotone(0, e.capacity, e.capacity);
    assert LoadRatio(0, e.capacity) == 0.0;
  }

  /** Saturating an edge never makes it cheaper than an attainable load does, unless it is hollow. */
  lemma SaturationNeverCheapensIff(e: Edge)
    requires Sane(e)
    ensures (forall load: nat {:trigger AttainableLoad(e, load)} ::
               AttainableLoad(e, load) ==> EdgeCost(e, load) <= EdgeCost(e, e.capacity)) <==> !Hollow(e)
  {
    if Hollow(e) {
      HollowIsCheaperEmpty(e);
    } else {
      forall load: nat | AttainableLoad(e, load)
        ensures EdgeCost(e, load) <= EdgeCost(e, e.capacity)
      {
        if e.capacity > 0 || e.metrics.vehicleCount > 0 {
          SaturationNeverLowersIff(e);
          EdgeCostMonotoneInLoad(e, load, e.capacity);
        } else {
          FullCostsTheSame(e, load);
        }
      }
    }
  }

  /** No offered alternative states less than its true cost. */
  ghost predicate NeverUnderstates(g: Graph) {
    forall origin, destination, loads, a {:trigger Offered(g, origin, destination, loads, a)} ::
      AttainableLoads(g, loads) && Offered(g, origin, destination, loads, a) ==> PathCost(g, a.path, loads).Leq(a.cost)
  }

  /** No edge that a simple route can use is hollow. */
  ghost predicate NoHollowHop(g: Graph) {
    forall n, e :: e in g.EdgesFrom(n) && n != e.dst ==> !Hollow(e)
  }

  lemma {:induction false} StepwiseCheaper(g: Graph, path: Path, low: Loads, high: Loads)
    requires forall i :: 0 <= i < |path| ==> StepCost(g, path[i], low).Leq(StepCost(g, path[i], high))
    ensures PathCost(g, path, low).Leq(PathCost(g, path, high))
  {
    if path != [] {
      StepwiseCheaper(g, path[..|path| - 1], low, high);
    }
  }

  lemma SaturatedStepNotCheaper(g: Graph, loads: Loads, id: EdgeId, path: Path, origin: NodeId, destination: NodeId,
                                i: nat)
    requires (forall k :: k in g.edges ==> Sane(g.edges[k])) && NoHollowHop(g) && AttainableLoads(g, loads)
    requires IsRoute(g, path, origin, destination) && Simple(path) && i < |path| && id in g.edges
    ensures StepCost(g, path[i], loads).Leq(StepCost(g, path[i], loads[id := g.edges[id].capacity]))
  {
    if path[i].via == Some(id) {
      var e := g.edges[id];
      assert i > 0 && Follows(g, path[i - 1].node, path[i]);
      assert path[i - 1].node != path[i].node && !Hollow(e);
      SaturationNeverCheapensIff(e);
      assert AttainableLoad(e, LoadAt(loads, id));
    }
  }

  /** A hollow hop with one vehicle on it is offered at less than it costs. */
  lemma HollowHopUnderstates(g: Graph, n: NodeId, e: Edge, loads: Loads, a: Alternative)
    requires g.Keyed() && e in g.EdgesFrom(n) && n != e.dst && Hollow(e) && Sane(e) && loads == map[e.id := 1]
    requires a.path == [PathStep(n, None), PathStep(e.dst, Some(e.id))] && a.cost == Finite(EdgeCost(e, 0))
    ensures AttainableLoads(g, loads) && Offered(g, n, e.dst, loads, a) && a.cost.Less(PathCost(g, a.path, loads))
  {
    g.EdgesFromMembers(n, e);
    HollowIsCheaperEmpty(e);
    assert Follows(g, a.path[0].node, a.path[1]);
    OneEdgeCost(g, a.path, loads);
    OneEdgeCost(g, a.path, loads[e.id := g.edges[e.id].capacity]);
  }

  /** The stated costs never understate the true ones if and only if no hop is hollow. */
  lemma NeverUnderstatesIff(g: Graph)
    requires g.Keyed() && forall id :: id in g.edges ==> Sane(g.edges[id])
    ensures NeverUnderstates(g) <==> NoHollowHop(g)
  {
    if NoHollowHop(g) {
      forall origin, destination, loads, a | AttainableLoads(g, loads) && Offered(g, origin, destination, loads, a)
        ensures PathCost(g, a.path, loads).Leq(a.cost)
      {
        if a.cost != PathCost(g, a.path, loads) {
          var id :| id in g.edges && a.cost == PathCost(g, a.path, loads[id := g.edges[id].capacity]);
          forall i | 0 <= i < |a.path|
            ensures StepCost(g, a.path[i], loads).Leq(StepCost(g, a.path[i], loads[id := g.edges[id].capacity]))
          {
            SaturatedStepNotCheaper(g, loads, id, a.path, origin, destination, i);
          }
          StepwiseCheaper(g, a.path, loads, loads[id := g.edges[id].capacity]);
        }
      }
    } else {
      var n, e :| e in g.EdgesFrom(n) && n != e.dst && Hollow(e);
      g.EdgesFromMembers(n, e);
      var a := Alternative([PathStep(n, None), PathStep(e.dst, Some(e.id))], Finite(EdgeCost(e, 0)));
      HollowHopUnderstates(g, n, e, map[e.id := 1], a);
    }
  }

  /** The stated cost of an offered route that fits never understates the true one. */
  lemma FittingCostNeverUnderstates(g: Graph, origin: NodeId, destination: NodeId, loads: Loads, a: Alternative)
    requires HonestGraph(g) && AttainableLoads(g, loads) && Offered(g, origin, destination, loads, a)
      && Fits(g, a.path, loads)
    ensures PathCost(g, a.path, loads).Leq(a.cost)
  {
    if a.cost != PathCost(g, a.path, loads) {
      var id :| id in g.edges && a.cost == PathCost(g, a.path, loads[id := g.edges[id].capacity]);
      SaturatingFittingPathOnlyRaises(g, loads, id, a.path);
    }
  }

  /** The loads with one edge saturated, if the graph knows it. */
  function Saturated(g: Graph, loads: Loads, id: EdgeId): Loads {
    if id in g.edges then loads[id := g.edges[id].capacity] else loads
  }

  /** What the search returns for the trip under these loads. */
  ghost predicate FoundFor(g: Graph, metric: Metric, origin: NodeId, destination: NodeId, loads: Loads,
                           a: Alternative)
  {
    Pathfinder.Found(g, metric, origin, destination, loads, true, a.path, a.cost)
  }

  lemma FoundIsOffered(g: Graph, metric: Metric, origin: NodeId, destination: NodeId, loads: Loads, id: EdgeId,
                       a: Alternative)
    requires a.path != [] && FoundFor(g, metric, origin, destination, Saturated(g, loads, id), a)
    ensures Offered(g, origin, destination, loads, a)
  {
  }

  /** The list kept from the answers to the first steps of the primary route: the primary first, then every answer that
      is a route, differs from the primary route and is not listed yet. */
  function Gathered(primary: Alternative, answers: seq<Alternative>): seq<Alternative>
    requires |answers| <= |primary.path|
  {
    if answers == [] then (if primary.path == [] then [] else [primary])
    else
      var n := |answers| - 1;
      var before, answer := Gathered(primary, answers[..n]), answers[n];
      if primary.path[n].via.Some? && answer.path != [] && answer.path != primary.path && answer !in before
      then before + [answer] else before
  }

  /** Saturating an edge puts as many vehicles on it as it holds, and leaves the load of every other edge. */
  lemma SaturatedLoadsAre(g: Graph, loads: Loads, id: EdgeId, other: EdgeId)
    ensures LoadAt(Saturated(g, loads, id), other) ==
            if other == id && id in g.edges then g.edges[id].capacity else LoadAt(loads, other)
  {
  }

  /** The answer to a step of the primary route is what the search returns with its edge saturated. */
  ghost predicate StepAnswered(g: Graph, metric: Metric, origin: NodeId, destination: NodeId, loads: Loads,
                               step: PathStep, answer: Alternative)
  {
    step.via.Some? ==> FoundFor(g, metric, origin, destination, Saturated(g, loads, step.via.value), answer)
  }

  ghost predicate AnsweredAt(g: Graph, metric: Metric, origin: NodeId, destination: NodeId, loads: Loads,
                             primary: Alternative, answers: seq<Alternative>, n: nat)
    requires n < |answers| <= |primary.path|
  {
    StepAnswered(g, metric, origin, destination, loads, primary.path[n], answers[n])
  }

  /** The diversity loop after `|answers|` steps of the primary route, before it has `k` alternatives. */
  ghost predicate Trying(g: Graph, metric: Metric, origin: NodeId, destination: NodeId, loads: Loads, k: nat,
                         primary: Alternative, answers: seq<Alternative>)
  {
    && FoundFor(g, metric, origin, destination, loads, primary)
    && |answers| <= |primary.path|
    && (forall n {:trigger AnsweredAt(g, metric, origin, destination, loads, primary, answers, n)} ::
          0 <= n < |answers| ==> AnsweredAt(g, metric, origin, destination, loads, primary, answers, n))
    && forall n :: 0 <= n < |answers| ==> |Gathered(primary, answers[..n])| < k
  }

  /** The loop tried every step of the primary route, or stopped as soon as it had `k` alternatives. */
  ghost predicate Tried(g: Graph, metric: Metric, origin: NodeId, destination: NodeId, loads: Loads, k: nat,
                        primary: Alternative, answers: seq<Alternative>)
  {
    && Trying(g, metric, origin, destination, loads, k, primary, answers)
    && (|answers| == |primary.path| || |Gathered(primary, answers)| >= k)
  }

  /** The alternatives as the planner computes them: the answer under the current loads, then those with one edge of its
      route saturated after the other. */
  ghost predicate Diverse(g: Graph, metric: Metric, origin: NodeId, destination: NodeId, loads: Loads, k: nat,
                          alternatives: seq<Alternative>)
  {
    exists primary, answers {:trigger Tried(g, metric, origin, destination, loads, k, primary, answers)} ::
      Tried(g, metric, origin, destination, loads, k, primary, answers) && alternatives == Gathered(primary, answers)
  }

  /** Offered and pairwise distinct. */
  ghost predicate Offers(g: Graph, origin: NodeId, destination: NodeId, loads: Loads, alternatives: seq<Alternative>) {
    && (forall i :: 0 <= i < |alternatives| ==> Offered(g, origin, destination, loads, alternatives[i]))
    && forall i, j :: 0 <= i < j < |alternatives| ==> alternatives[i] != alternatives[j]
  }

  ghost predicate OfferedAt(g: Graph, origin: NodeId, destination: NodeId, loads: Loads, primary: Alternative,
                            answers: seq<Alternative>, n: nat)
    requires n < |answers| <= |primary.path|
  {
    primary.path[n].via.Some? && answers[n].path != [] ==> Offered(g, origin, destination, loads, answers[n])
  }

  lemma AnsweredIsOffered(g: Graph, metric: Metric, origin: NodeId, destination: NodeId, loads: Loads,
                          primary: Alternative, answers: seq<Alternative>, n: nat)
    requires n < |answers| <= |primary.path|
    requires AnsweredAt(g, metric, origin, destination, loads, primary, answers, n)
    ensures OfferedAt(g, origin, destination, loads, primary, answers, n)
  {
    if primary.path[n].via.Some? && answers[n].path != [] {
      FoundIsOffered(g, metric, origin, destination, loads, primary.path[n].via.value, answers[n]);
    }
  }

  lemma OffersSnoc(g: Graph, origin: NodeId, destination: NodeId, loads: Loads, before: seq<Alternative>,
                   a: Alternative)
    requires Offers(g, origin, destination, loads, before) && Offered(g, origin, destination, loads, a) && a !in before
    ensures Offers(g, origin, destination, loads, before + [a])
  {
  }

  lemma {:induction false} GatheredOffers(g: Graph, origin: NodeId, destination: NodeId, loads: Loads,
                                          primary: Alternative, answers: seq<Alternative>)
    requires |answers| <= |primary.path| && Offered(g, origin, destination, loads, primary)
    requires forall n {:trigger OfferedAt(g, origin, destination, loads, primary, answers, n)} ::
               0 <= n < |answers| ==> OfferedAt(g, origin, destination, loads, primary, answers, n)
    ensures Offers(g, origin, destination, loads, Gathered(primary, answers))
    decreases |answers|
  {
    if answers != [] {
      var n := |answers| - 1;
      forall i | 0 <= i < n
        ensures OfferedAt(g, origin, destination, loads, primary, answers[..n], i)
      {
        assert OfferedAt(g, origin, destination, loads, primary, answers, i);
      }
      GatheredOffers(g, origin, destination, loads, primary, answers[..n]);
      assert OfferedAt(g, origin, destination, loads, primary, answers, n);
      if Gathered(primary, answers) != Gathered(primary, answers[..n]) {
        OffersSnoc(g, origin, destination, loads, Gathered(primary, answers[..n]), answers[n]);
      }
    }
  }

  lemma {:induction false} GatheredStarts(primary: Alternative, answers: seq<Alternative>)
    requires |answers| <= |primary.path|
    ensures primary.path == [] ==> Gathered(primary, answers) == []
    ensures primary.path != [] ==> Gathered(primary, answers) != [] && Gathered(primary, answers)[0] == primary
    ensures answers != [] ==> |Gathered(primary, answers)| <= |Gathered(primary, answers[..|answers| - 1])| + 1
  {
    if answers != [] {
      GatheredStarts(primary, answers[..|answers| - 1]);
    }
  }

  lemma TriedOffers(g: Graph, metric: Metric, origin: NodeId, destination: NodeId, loads: Loads, k: nat,
                    primary: Alternative, answers: seq<Alternative>)
    requires Trying(g, metric, origin, destination, loads, k, primary, answers) && primary.path != []
    ensures Offers(g, origin, destination, loads, Gathered(primary, answers))
  {
    forall n | 0 <= n < |answers|
      ensures OfferedAt(g, origin, destination, loads, primary, answers, n)
    {
      assert AnsweredAt(g, metric, origin, destination, loads, primary, answers, n);
      AnsweredIsOffered(g, metric, origin, destination, loads, primary, answers, n);
    }
    GatheredOffers(g, origin, destination, loads, primary, answers);
  }

  /** At most one alternative comes with a step, so the loop never has more than `k`. */
  lemma DiverseIs(g: Graph, metric: Metric, origin: NodeId, destination: NodeId, loads: Loads, k: nat,
                  alternatives: seq<Alternative>)
    requires k >= 1 && Diverse(g, metric, origin, destination, loads, k, alternatives)
    ensures |alternatives| <= k && Offers(g, origin, destination, loads, alternatives)
    ensures alternatives == [] <==>
        origin != destination && (origin !in g.nodes || destination !in g.nodes || !Reachable(g, origin, destination))
    ensures alternatives != [] ==> FoundFor(g, metric, origin, destination, loads, alternatives[0])
  {
    var primary, answers :| Tried(g, metric, origin, destination, loads, k, primary, answers)
                            && alternatives == Gathered(primary, answers);
    GatheredStarts(primary, answers);
    if answers != [] {
      assert |Gathered(primary, answers[..|answers| - 1])| < k;
    }
    if primary.path != [] {
      TriedOffers(g, metric, origin, destination, loads, k, primary, answers);
    }
  }

  lemma AnsweredNext(g: Graph, metric: Metric, origin: NodeId, destination: NodeId, loads: Loads,
                     primary: Alternative, answers: seq<Alternative>, answer: Alternative, n: nat)
    requires n <= |answers| < |primary.path|
    requires n < |answers| ==> AnsweredAt(g, metric, origin, destination, loads, primary, answers, n)
    requires StepAnswered(g, metric, origin, destination, loads, primary.path[|answers|], answer)
    ensures AnsweredAt(g, metric, origin, destination, loads, primary, answers + [answer], n)
  {
  }

  lemma TryingNext(g: Graph, metric: Metric, origin: NodeId, destination: NodeId, loads: Loads, k: nat,
                   primary: Alternative, answers: seq<Alternative>, answer: Alternative)
    requires Trying(g, metric, origin, destination, loads, k, primary, answers) && |answers| < |primary.path|
    requires |Gathered(primary, answers)| < k
    requires StepAnswered(g, metric, origin, destination, loads, primary.path[|answers|], answer)
    ensures Trying(g, metric, origin, destination, loads, k, primary, answers + [answer])
  {
    var longer := answers + [answer];
    forall n | 0 <= n < |longer|
      ensures AnsweredAt(g, metric, origin, destination, loads, primary, longer, n)
    {
      AnsweredNext(g, metric, origin, destination, loads, primary, answers, answer, n);
    }
    forall n | 0 <= n < |longer|
      ensures |Gathered(primary, longer[..n])| < k
    {
      assert longer[..n] == if n < |answers| then answers[..n] else answers;
    }
  }

  lemma GatheredNext(primary: Alternative, answers: seq<Alternative>, answer: Alternative)
    requires |answers| < |primary.path|
    ensures
      var before := Gathered(primary, answers);
      Gathered(primary, answers + [answer]) ==
      if primary.path[|answers|].via.Some? && answer.path != [] && answer.path != primary.path && answer !in before
      then before + [answer] else before
  {
    assert (answers + [answer])[..|answers|] == answers;
  }

  /** The search under the given loads. */
  method Reanswer(g: Graph, metric: Metric, origin: NodeId, destination: NodeId, loads: Loads)
    returns (answer: Alternative)
    requires g.Keyed()
    ensures FoundFor(g, metric, origin, destination, loads, answer)
  {
    var path, cost := Pathfinder.FindPath(g, metric, origin, destination, loads, true);
    answer := Alternative(path, cost);
  }

  /** `_k_alternatives`: the answer under the current loads, then the answers with its edges saturated in turn. */
  method KAlternatives(g: Graph, metric: Metric, origin: NodeId, destination: NodeId, loads: Loads, k: nat)
    returns (alternatives: seq<Alternative>)
    requires g.Keyed() && k >= 2
    ensures Diverse(g, metric, origin, destination, loads, k, alternatives)
  {
    var primary := Reanswer(g, metric, origin, destination, loads);
    alternatives := if primary.path != [] then [primary] else [];
    ghost var answers: seq<Alternative> := [];
    for i := 0 to |primary.path|
      invariant |answers| == i && |alternatives| < k && alternatives == Gathered(primary, answers)
      invariant Trying(g, metric, origin, destination, loads, k, primary, answers)
    {
      if primary.path[i].via == None {
        TryingNext(g, metric, origin, destination, loads, k, primary, answers, primary);
        GatheredNext(primary, answers, primary);
        answers := answers + [primary];
        continue;
      }
      var temp := Saturated(g, loads, primary.path[i].via.value);
      var answer := Reanswer(g, metric, origin, destination, temp);
      TryingNext(g, metric, origin, destination, loads, k, primary, answers, answer);
      GatheredNext(primary, answers, answer);
      answers := answers + [answer];
      if answer.path != [] && answer.path != primary.path && answer !in alternatives {
        alternatives := alternatives + [answer];
      }
      if |alternatives| >= k {
        break;
      }
    }
    assert Tried(g, metric, origin, destination, loads, k, primary, answers);
  }

  // ---------------------------------------------------------------- cumulative load

  /** Each step with a (non-empty) edge id adds one vehicle to that edge. */
  function AddPath(loads: Loads, path: Path): Loads {
    if path == [] then loads
    else
      var before := AddPath(loads, path[..|path| - 1]);
      var via := path[|path| - 1].via;
      if via.Some? && via.value != "" then before[via.value := LoadAt(before, via.value) + 1] else before
  }

  method AddPathLoads(loads: Loads, path: Path) returns (updated: Loads)
    ensures updated == AddPath(loads, path)
  {
    updated := loads;
    for i := 0 to |path|
      invariant updated == AddPath(loads, path[..i])
    {
      assert path[..i + 1][..i] == path[..i];
      if path[i].via.Some? && path[i].via.value != "" {
        updated := updated[path[i].via.value := LoadAt(updated, path[i].via.value) + 1];
      }
    }
    assert path[..|path|] == path;
  }

  /** The load table after the given assignments. */
  function LoadsAfter(results: seq<Assignment>): Loads {
    if results == [] then map[]
    else
      var before := LoadsAfter(results[..|results| - 1]);
      var last := results[|results| - 1];
      if last.triggered then AddPath(before, last.newPath) else before
  }

  predicate Uses(path: Path, id: EdgeId) {
    exists i :: 0 <= i < |path| && path[i].via == Some(id)
  }

  /** How many rerouted vehicles drive over the edge. */
  function ReroutedOver(results: seq<Assignment>, id: EdgeId): nat {
    if results == [] then 0
    else
      var last := results[|results| - 1];
      ReroutedOver(results[..|results| - 1], id) + (if last.triggered && Uses(last.newPath, id) then 1 else 0)
  }

  ghost predicate EdgesOnce(path: Path) {
    forall i, j :: 0 <= i < j < |path| && path[j].via.Some? ==> path[i].via != path[j].via
  }

  lemma {:induction false} AddPathCountsOnce(loads: Loads, path: Path, id: EdgeId)
    requires EdgesOnce(path) && id != ""
    ensures LoadAt(AddPath(loads, path), id) == LoadAt(loads, id) + (if Uses(path, id) then 1 else 0)
  {
    if path != [] {
      var n := |path| - 1;
      AddPathCountsOnce(loads, path[..n], id);
      assert Uses(path, id) <==> Uses(path[..n], id) || path[n].via == Some(id);
    }
  }

  /** During a plan the load of an edge is the number of rerouted vehicles whose new path uses it. */
  lemma {:induction false} LoadCountsVehicles(results: seq<Assignment>, id: EdgeId)
    requires forall i :: 0 <= i < |results| && results[i].triggered ==> EdgesOnce(results[i].newPath)
    requires id != ""
    ensures LoadAt(LoadsAfter(results), id) == ReroutedOver(results, id)
  {
    if results != [] {
      var n := |results| - 1;
      LoadCountsVehicles(results[..n], id);
      if results[n].triggered {
        AddPathCountsOnce(LoadsAfter(results[..n]), results[n].newPath, id);
      }
    }
  }

  // ---------------------------------------------------------------- outcome of one vehicle

  /** An alternative the planner takes when it comes to it: stated to be cheaper, within the cap, and materially
      cheaper when nothing forces the reroute. */
  ghost predicate Takes(g: Graph, loads: Loads, oldPath: Path, oldCost: Cost, alt: Alternative) {
    alt.cost.Less(oldCost) && Fits(g, alt.path, loads) && (Unforced(g, oldPath) ==> MaterialGain(oldCost, alt.cost))
  }

  /** The first alternative that is taken, or the old path if none is. */
  ghost predicate FirstTaken(g: Graph, loads: Loads, oldPath: Path, oldCost: Cost, alternatives: seq<Alternative>,
                             path: Path, cost: Cost) {
    || (path == oldPath && cost == oldCost && NoneTaken(g, loads, oldPath, oldCost, alternatives))
    || exists i :: 0 <= i < |alternatives| && alternatives[i] == Alternative(path, cost)
                   && Takes(g, loads, oldPath, oldCost, alternatives[i])
                   && NoneTaken(g, loads, oldPath, oldCost, alternatives[..i])
  }

  ghost predicate NoneTaken(g: Graph, loads: Loads, oldPath: Path, oldCost: Cost, alternatives: seq<Alternative>) {
    forall i :: 0 <= i < |alternatives| ==> !Takes(g, loads, oldPath, oldCost, alternatives[i])
  }

  /** A list of alternatives as the planner computes it. */
  ghost predicate Considered(g: Graph, metric: Metric, trip: Trip, loads: Loads, alternatives: seq<Alternative>) {
    Diverse(g, metric, trip.origin, trip.destination, loads, K_ALTERNATIVES, alternatives)
  }

  ghost predicate Settled(g: Graph, metric: Metric, trip: Trip, loads: Loads, oldPath: Path, oldCost: Cost, path: Path,
                          cost: Cost)
  {
    exists alternatives ::
      && Considered(g, metric, trip, loads, alternatives)
      && FirstTaken(g, loads, oldPath, oldCost, alternatives, path, cost)
  }

  /** What one assignment promises, given the load table when the vehicle was planned. */
  ghost predicate Outcome(g: Graph, metric: Metric, trip: Trip, loads: Loads, a: Assignment) {
    && a.vehicle == trip.vehicle
    && a.oldCost == PathCost(g, a.oldPath, loads)
    && a.oldEta == PathEta(g, a.oldPath) && a.newEta == PathEta(g, a.newPath)
    && Settled(g, metric, trip, loads, a.oldPath, a.oldCost, a.newPath, a.newCost)
    && (a.triggered <==> a.newPath != a.oldPath)
    && a.reason == if a.triggered
        then (if Unforced(g, a.oldPath) then MaterialImprovement else FirstForce(g, a.oldPath))
                   else (if Unforced(g, a.oldPath) then NoReason else NoAlternative)
  }

  /** The path settled on is the old one at its cost, or an offered route that is taken. */
  ghost predicate Chosen(g: Graph, trip: Trip, loads: Loads, oldPath: Path, oldCost: Cost, path: Path, cost: Cost) {
    || (path == oldPath && cost == oldCost)
    || (Offered(g, trip.origin, trip.destination, loads, Alternative(path, cost))
        && Takes(g, loads, oldPath, oldCost, Alternative(path, cost)))
  }

  lemma TakenIsChosen(g: Graph, trip: Trip, loads: Loads, oldPath: Path, oldCost: Cost, alternatives: seq<Alternative>,
                      path: Path, cost: Cost)
    requires Offers(g, trip.origin, trip.destination, loads, alternatives)
    requires FirstTaken(g, loads, oldPath, oldCost, alternatives, path, cost)
    ensures Chosen(g, trip, loads, oldPath, oldCost, path, cost)
  {
  }

  lemma SettledIsChosen(g: Graph, metric: Metric, trip: Trip, loads: Loads, oldPath: Path, oldCost: Cost, path: Path,
                        cost: Cost)
    requires Settled(g, metric, trip, loads, oldPath, oldCost, path, cost)
    ensures Chosen(g, trip, loads, oldPath, oldCost, path, cost)
  {
    var alternatives :| Considered(g, metric, trip, loads, alternatives)
                        && FirstTaken(g, loads, oldPath, oldCost, alternatives, path, cost);
    DiverseIs(g, metric, trip.origin, trip.destination, loads, K_ALTERNATIVES, alternatives);
    TakenIsChosen(g, trip, loads, oldPath, oldCost, alternatives, path, cost);
  }

  ghost predicate MaterialGain(before: Cost, after: Cost) {
    before.Finite? && after.Finite? && before.v > 0.0 && after.v <= 0.8 * before.v
  }

  /** A real gain under the loads of the moment: the true cost of the new path, not the stated one. */
  ghost predicate RealGain(g: Graph, loads: Loads, a: Assignment) {
    if a.triggered then
      && a.newPath != a.oldPath
      && PathCost(g, a.newPath, loads).Less(PathCost(g, a.oldPath, loads))
      && (Unforced(g, a.oldPath) ==> MaterialGain(PathCost(g, a.oldPath, loads), PathCost(g, a.newPath, loads)))
    else
      a.newPath == a.oldPath && a.newCost == a.oldCost == PathCost(g, a.oldPath, loads)
  }

  lemma ImprovementIsMaterial(before: Cost, after: Cost)
    ensures Improves(before, after) <==> MaterialGain(before, after)
  {
    if before.Finite? && after.Finite? && before.v > 0.0 {
      QuotientAtLeast(before.v, before.v - after.v);
    }
  }

  lemma QuotientAtLeast(before: real, gain: real)
    requires before > 0.0
    ensures gain / before >= MATERIAL_IMPROVEMENT_RATIO <==> gain >= MATERIAL_IMPROVEMENT_RATIO * before
  {
    var q := gain / before;
    assert q * before == gain;
    assert q >= MATERIAL_IMPROVEMENT_RATIO ==> q * before >= MATERIAL_IMPROVEMENT_RATIO * before;
    assert q < MATERIAL_IMPROVEMENT_RATIO ==> q * before < MATERIAL_IMPROVEMENT_RATIO * before;
  }

  lemma TrueCostGains(before: Cost, stated: Cost, paid: Cost, unforced: bool)
    requires stated.Less(before) && paid.Leq(stated) && (unforced ==> MaterialGain(before, stated))
    ensures paid.Less(before) && (unforced ==> MaterialGain(before, paid))
  {
  }

  /** A taken route fits, so its stated cost never understates the true one. */
  lemma TakenGains(g: Graph, trip: Trip, loads: Loads, oldPath: Path, oldCost: Cost, alt: Alternative)
    requires HonestGraph(g) && AttainableLoads(g, loads) && Offered(g, trip.origin, trip.destination, loads, alt)
    requires Takes(g, loads, oldPath, oldCost, alt)
    ensures PathCost(g, alt.path, loads).Less(oldCost)
    ensures Unforced(g, oldPath) ==> MaterialGain(oldCost, PathCost(g, alt.path, loads))
  {
    FittingCostNeverUnderstates(g, trip.origin, trip.destination, loads, alt);
    TrueCostGains(oldCost, alt.cost, PathCost(g, alt.path, loads), Unforced(g, oldPath));
  }

  /** Every outcome is a real gain under the loads of the moment. */
  lemma OutcomeIsRealGain(g: Graph, metric: Metric, trip: Trip, loads: Loads, a: Assignment)
    requires HonestGraph(g) && AttainableLoads(g, loads) && Outcome(g, metric, trip, loads, a)
    ensures RealGain(g, loads, a)
  {
    var alt := Alternative(a.newPath, a.newCost);
    SettledIsChosen(g, metric, trip, loads, a.oldPath, a.oldCost, a.newPath, a.newCost);
    if Offered(g, trip.origin, trip.destination, loads, alt) && Takes(g, loads, a.oldPath, a.oldCost, alt) {
      TakenGains(g, trip, loads, a.oldPath, a.oldCost, alt);
    }
  }

  /** A vehicle left on its path was offered no alternative worth taking: an untriggered assignment is truthful. */
  lemma UntriggeredHadNoAlternative(g: Graph, metric: Metric, trip: Trip, loads: Loads, a: Assignment)
    requires HonestGraph(g) && AttainableLoads(g, loads) && Outcome(g, metric, trip, loads, a) && !a.triggered
    ensures exists alternatives ::
              && Considered(g, metric, trip, loads, alternatives) && |alternatives| <= 3
              && NoneTaken(g, loads, a.oldPath, a.oldCost, alternatives)
  {
    OutcomeIsRealGain(g, metric, trip, loads, a);
    var alternatives :| Considered(g, metric, trip, loads, alternatives)
                        && FirstTaken(g, loads, a.oldPath, a.oldCost, alternatives, a.newPath, a.newCost);
    DiverseIs(g, metric, trip.origin, trip.destination, loads, K_ALTERNATIVES, alternatives);
  }

  lemma AddFittingPathStaysAttainable(g: Graph, loads: Loads, path: Path)
    requires AttainableLoads(g, loads) && EdgesOnce(path) && Fits(g, path, loads)
    ensures AttainableLoads(g, AddPath(loads, path))
  {
    forall id | id in g.edges
      ensures LoadAt(AddPath(loads, path), id) >= 0
      ensures LoadAt(AddPath(loads, path), id) > 0 ==> EdgeFits(g.edges[id], LoadAt(AddPath(loads, path), id) - 1)
    {
      if id != "" {
        AddPathCountsOnce(loads, path, id);
      } else {
        EmptyIdNeverLoaded(loads, path);
      }
    }
  }

  lemma {:induction false} EmptyIdNeverLoaded(loads: Loads, path: Path)
    ensures LoadAt(AddPath(loads, path), "") == LoadAt(loads, "")
  {
    if path != [] {
      EmptyIdNeverLoaded(loads, path[..|path| - 1]);
    }
  }

  lemma SimpleRouteHasEdgesOnce(g: Graph, path: Path, origin: NodeId, destination: NodeId)
    requires IsRoute(g, path, origin, destination) && Simple(path)
    ensures EdgesOnce(path)
  {
    forall i, j | 0 <= i < j < |path| && path[j].via.Some?
      ensures path[i].via != path[j].via
    {
      SimpleRouteUsesEdgesOnce(g, path, origin, destination, i, j);
    }
  }

  // ---------------------------------------------------------------- planning

  /** With no force on the old path a reason means a material gain; with one it is the first force. */
  lemma ReasonIs(g: Graph, oldPath: Path, oldCost: Cost, cost: Cost, hazard: real, forced: Reason)
    requires forced == FirstForce(g, oldPath) && cost.Less(oldCost)
    requires forced == NoReason ==> hazard < CRITICAL_HAZARD_THRESHOLD
    requires forced == CriticalHazard ==> hazard >= CRITICAL_HAZARD_THRESHOLD
    ensures
      var reason := ShouldReroute(oldCost, cost, hazard, forced == Closure);
      if Unforced(g, oldPath) then reason == if MaterialGain(oldCost, cost) then MaterialImprovement else NoReason
      else reason == forced
  {
    ImprovementIsMaterial(oldCost, cost);
  }

  /** The first alternative that is justified, stated to be cheaper, and within the cap. */
  method Choose(g: Graph, loads: Loads, oldPath: Path, oldCost: Cost, forced: Reason, alternatives: seq<Alternative>)
    returns (path: Path, cost: Cost, reason: Reason)
    requires forced == FirstForce(g, oldPath)
    ensures FirstTaken(g, loads, oldPath, oldCost, alternatives, path, cost)
    ensures path != oldPath ==> reason == if Unforced(g, oldPath) then MaterialImprovement else forced
  {
    path, cost, reason := oldPath, oldCost, forced;
    var hazard := MaxHazard(g, oldPath);
    HazardMatchesForce(g, oldPath, hazard);
    for i := 0 to |alternatives|
      invariant path == oldPath && cost == oldCost && NoneTaken(g, loads, oldPath, oldCost, alternatives[..i])
    {
      var alt := alternatives[i];
      reason := ShouldReroute(oldCost, alt.cost, hazard, forced == Closure);
      if alt.cost.Less(oldCost) {
        ReasonIs(g, oldPath, oldCost, alt.cost, hazard, forced);
      }
      if forced != NoReason || reason != NoReason {
        var fits := FitsCapacity(g, alt.path, loads);
        if alt.cost.Less(oldCost) && fits {
          assert alternatives[i] == Alternative(alt.path, alt.cost)
              && Takes(g, loads, oldPath, oldCost, alternatives[i]);
          return alt.path, alt.cost, if reason != NoReason then reason else forced;
        }
      }
    }
    assert alternatives[..|alternatives|] == alternatives;
  }

  /** The path to improve on: the vehicle's own, or the cheapest one without loads. */
  method CurrentPath(g: Graph, metric: Metric, trip: Trip, current: Path) returns (path: Path)
    requires g.Keyed()
    ensures if current != [] then path == current
            else exists cost :: Pathfinder.Answer(g, trip.origin, trip.destination, map[], path, cost)
  {
    path := current;
    if path == [] {
      var unloadedCost;
      path, unloadedCost := Pathfinder.FindPath(g, metric, trip.origin, trip.destination, map[], true);
    }
  }

  /** Old cost, best alternative and reason; a forced vehicle that finds none has no alternative. */
  method Decide(g: Graph, metric: Metric, trip: Trip, oldPath: Path, loads: Loads)
    returns (oldCost: Cost, path: Path, cost: Cost, reason: Reason)
    requires g.Keyed()
    ensures oldCost == PathCost(g, oldPath, loads) && Settled(g, metric, trip, loads, oldPath, oldCost, path, cost)
    ensures reason == if path != oldPath
                      then (if Unforced(g, oldPath) then MaterialImprovement else FirstForce(g, oldPath))
                      else (if Unforced(g, oldPath) then NoReason else NoAlternative)
    ensures path == oldPath && trip.origin != trip.destination && Consistent(g, metric, true, loads, trip.destination)
            && trip.origin in g.nodes && trip.destination in g.nodes && Reachable(g, trip.origin, trip.destination) ==>
              PrimaryNotTaken(g, trip, loads, oldPath, oldCost, cost)
  {
    oldCost := ComputePathCost(g, oldPath, loads);
    var forced := CheckTrigger(g, oldPath);
    var alternatives := KAlternatives(g, metric, trip.origin, trip.destination, loads, K_ALTERNATIVES);
    DiverseIs(g, metric, trip.origin, trip.destination, loads, K_ALTERNATIVES, alternatives);
    assert Considered(g, metric, trip, loads, alternatives);
    path, cost, reason := Choose(g, loads, oldPath, oldCost, forced, alternatives);
    if path == oldPath {
      reason := if forced != NoReason then NoAlternative else NoReason;
    }
  }

  /** A vehicle that stays on its path at its cost has a cheapest route under the loads that it does not take. */
  ghost predicate PrimaryNotTaken(g: Graph, trip: Trip, loads: Loads, oldPath: Path, oldCost: Cost, cost: Cost) {
    cost == oldCost ==>
      exists primary: Alternative ::
        && Pathfinder.Answer(g, trip.origin, trip.destination, loads, primary.path, primary.cost)
        && Pathfinder.CheapestRoute(g, trip.origin, trip.destination, loads, primary.cost)
        && !Takes(g, loads, oldPath, oldCost, primary)
  }

  /** The assignment of one vehicle; a forced vehicle left on its path is not reported as rerouted. */
  method PlanVehicle(g: Graph, metric: Metric, trip: Trip, current: Path, loads: Loads) returns (a: Assignment)
    requires g.Keyed()
    ensures Outcome(g, metric, trip, loads, a)
    ensures if current != [] then a.oldPath == current
            else exists cost :: Pathfinder.Answer(g, trip.origin, trip.destination, map[], a.oldPath, cost)
    ensures !a.triggered && trip.origin != trip.destination && Consistent(g, metric, true, loads, trip.destination)
            && trip.origin in g.nodes && trip.destination in g.nodes && Reachable(g, trip.origin, trip.destination) ==>
              PrimaryNotTaken(g, trip, loads, a.oldPath, a.oldCost, a.newCost)
  {
    var oldPath := CurrentPath(g, metric, trip, current);
    var oldCost, bestPath, bestCost, bestReason := Decide(g, metric, trip, oldPath, loads);
    var oldEta := ComputePathEta(g, oldPath);
    var newEta := ComputePathEta(g, bestPath);
    a := Assignment(trip.vehicle, oldPath, bestPath, oldEta, newEta, oldCost, bestCost, bestReason,
                    bestPath != oldPath);
  }

  lemma HazardMatchesForce(g: Graph, path: Path, hazard: real)
    requires forall i :: 0 <= i < |path| && StepEdge(g, path[i]).Some? ==>
                           StepEdge(g, path[i]).value.metrics.hazardPenalty <= hazard
    requires hazard > 0.0 ==> exists i :: 0 <= i < |path| && StepEdge(g, path[i]).Some? &&
                                          StepEdge(g, path[i]).value.metrics.hazardPenalty == hazard
    ensures FirstForce(g, path) == NoReason ==> hazard < CRITICAL_HAZARD_THRESHOLD
    ensures FirstForce(g, path) == CriticalHazard ==> hazard >= CRITICAL_HAZARD_THRESHOLD
  {
    if FirstForce(g, path) == NoReason && hazard > 0.0 {
      var i :| 0 <= i < |path| && StepEdge(g, path[i]).Some? &&
               StepEdge(g, path[i]).value.metrics.hazardPenalty == hazard;
      assert StepForces(g, path[i]) == NoReason;
    }
  }

  ghost predicate PlannedAt(g: Graph, metric: Metric, trips: seq<Trip>, results: seq<Assignment>, i: nat)
    requires i < |results| <= |trips|
  {
    && AttainableLoads(g, LoadsAfter(results[..i]))
    && Outcome(g, metric, trips[i], LoadsAfter(results[..i]), results[i])
  }

  ghost predicate PlannedInOrder(g: Graph, metric: Metric, trips: seq<Trip>, results: seq<Assignment>) {
    && |results| <= |trips|
    && (forall i {:trigger PlannedAt(g, metric, trips, results, i)} ::
          0 <= i < |results| ==> PlannedAt(g, metric, trips, results, i))
    && AttainableLoads(g, LoadsAfter(results))
  }

  lemma LoadsAfterSnoc(results: seq<Assignment>, a: Assignment)
    ensures LoadsAfter(results + [a]) == if a.triggered then AddPath(LoadsAfter(results), a.newPath)
      else LoadsAfter(results)
  {
    assert (results + [a])[..|results|] == results;
  }

  /** The load of a taken route keeps the table attainable. */
  lemma OutcomeStaysAttainable(g: Graph, metric: Metric, trip: Trip, loads: Loads, a: Assignment)
    requires AttainableLoads(g, loads) && Outcome(g, metric, trip, loads, a)
    ensures AttainableLoads(g, if a.triggered then AddPath(loads, a.newPath) else loads)
  {
    SettledIsChosen(g, metric, trip, loads, a.oldPath, a.oldCost, a.newPath, a.newCost);
    if a.triggered {
      SimpleRouteHasEdgesOnce(g, a.newPath, trip.origin, trip.destination);
      AddFittingPathStaysAttainable(g, loads, a.newPath);
    }
  }

  lemma PlannedStays(g: Graph, metric: Metric, trips: seq<Trip>, results: seq<Assignment>, a: Assignment, i: nat)
    requires PlannedInOrder(g, metric, trips, results) && i < |results| < |trips|
    ensures PlannedAt(g, metric, trips, results + [a], i)
  {
    assert (results + [a])[..i] == results[..i];
    assert PlannedAt(g, metric, trips, results, i);
  }

  lemma PlannedLast(g: Graph, metric: Metric, trips: seq<Trip>, results: seq<Assignment>, a: Assignment, loads: Loads)
    requires |results| < |trips| && loads == LoadsAfter(results) && AttainableLoads(g, loads)
    requires Outcome(g, metric, trips[|results|], loads, a)
    ensures PlannedAt(g, metric, trips, results + [a], |results|)
  {
    assert (results + [a])[..|results|] == results;
  }

  lemma PlanNext(g: Graph, metric: Metric, trips: seq<Trip>, results: seq<Assignment>, a: Assignment, loads: Loads)
    requires PlannedInOrder(g, metric, trips, results) && |results| < |trips| && loads == LoadsAfter(results)
    requires Outcome(g, metric, trips[|results|], loads, a)
    ensures PlannedInOrder(g, metric, trips, results + [a])
    ensures LoadsAfter(results + [a]) == if a.triggered then AddPath(loads, a.newPath) else loads
  {
    OutcomeStaysAttainable(g, metric, trips[|results|], loads, a);
    LoadsAfterSnoc(results, a);
    PlannedLast(g, metric, trips, results, a, loads);
    forall i | 0 <= i <= |results|
      ensures PlannedAt(g, metric, trips, results + [a], i)
    {
      if i < |results| {
        PlannedStays(g, metric, trips, results, a, i);
      }
    }
  }

  /** The next vehicle of a cycle. */
  method PlanInTurn(g: Graph, metric: Metric, trips: seq<Trip>, results: seq<Assignment>, current: Path, loads: Loads)
    returns (a: Assignment, loads': Loads)
    requires g.Keyed() && PlannedInOrder(g, metric, trips, results) && |results| < |trips|
    requires loads == LoadsAfter(results)
    ensures PlannedInOrder(g, metric, trips, results + [a]) && loads' == LoadsAfter(results + [a])
    ensures current != [] ==> a.oldPath == current
  {
    a := PlanVehicle(g, metric, trips[|results|], current, loads);
    PlanNext(g, metric, trips, results, a, loads);
    loads' := loads;
    if a.triggered {
      loads' := AddPathLoads(loads, a.newPath);
    }
  }

  /** One planning cycle: vehicles in dictionary order, each seeing the load of the reroutes before it. */
  method Plan(g: Graph, metric: Metric, trips: seq<Trip>, currentPaths: map<string, Path>)
    returns (results: seq<Assignment>)
    requires g.Keyed()
    ensures |results| == |trips| && PlannedInOrder(g, metric, trips, results)
    ensures forall i :: 0 <= i < |trips| && trips[i].vehicle in currentPaths && currentPaths[trips[i].vehicle] != [] ==>
                          results[i].oldPath == currentPaths[trips[i].vehicle]
  {
    var loads: Loads := map[];
    results := [];
    for n := 0 to |trips|
      invariant |results| == n && loads == LoadsAfter(results) && PlannedInOrder(g, metric, trips, results)
      invariant forall i :: 0 <= i < n && trips[i].vehicle in currentPaths && currentPaths[trips[i].vehicle] != [] ==>
                              results[i].oldPath == currentPaths[trips[i].vehicle]
    {
      var current := if trips[n].vehicle in currentPaths then currentPaths[trips[n].vehicle] else [];
      var a;
      a, loads := PlanInTurn(g, metric, trips, results, current, loads);
      results := results + [a];
    }
  }

  // ---------------------------------------------------------------- what a plan guarantees

  lemma PlannedIsChosen(g: Graph, metric: Metric, trips: seq<Trip>, results: seq<Assignment>, i: nat)
    requires i < |results| <= |trips| && PlannedAt(g, metric, trips, results, i)
    ensures Chosen(g, trips[i], LoadsAfter(results[..i]), results[i].oldPath, results[i].oldCost, results[i].newPath,
                   results[i].newCost)
  {
    SettledIsChosen(g, metric, trips[i], LoadsAfter(results[..i]), results[i].oldPath, results[i].oldCost,
                    results[i].newPath, results[i].newCost);
  }

  /** Every assignment of a cycle is a real gain under the loads of its moment. */
  lemma PlanMakesRealGains(g: Graph, metric: Metric, trips: seq<Trip>, results: seq<Assignment>, i: nat)
    requires HonestGraph(g) && PlannedInOrder(g, metric, trips, results) && i < |results|
    ensures RealGain(g, LoadsAfter(results[..i]), results[i])
  {
    assert PlannedAt(g, metric, trips, results, i);
    OutcomeIsRealGain(g, metric, trips[i], LoadsAfter(results[..i]), results[i]);
  }

  /** Load sharing is exact and bounded: the load of an edge counts the rerouted vehicles over it, and
      a loaded edge holds at most one vehicle more than its cap. */
  lemma PlanLoadsExactAndBounded(g: Graph, metric: Metric, trips: seq<Trip>, results: seq<Assignment>, id: EdgeId)
    requires PlannedInOrder(g, metric, trips, results) && id in g.edges && id != ""
    ensures LoadAt(LoadsAfter(results), id) == ReroutedOver(results, id)
    ensures ReroutedOver(results, id) > 0 ==>
              (g.edges[id].metrics.vehicleCount + ReroutedOver(results, id)) as real
              <= g.edges[id].capacity as real * LOAD_CAPACITY_FRACTION + 1.0
  {
    forall i | 0 <= i < |results| && results[i].triggered
      ensures EdgesOnce(results[i].newPath)
    {
      assert PlannedAt(g, metric, trips, results, i);
      PlannedIsChosen(g, metric, trips, results, i);
      SimpleRouteHasEdgesOnce(g, results[i].newPath, trips[i].origin, trips[i].destination);
    }
    LoadCountsVehicles(results, id);
  }

  // ---------------------------------------------------------------- no oscillation

  /** The route of one vehicle before and after a single-vehicle cycle under fixed metrics. */
  ghost predicate SinglePlan(g: Graph, metric: Metric, origin: NodeId, destination: NodeId, before: Path, after: Path) {
    exists a, vehicle :: PlannedInOrder(g, metric, [Trip(vehicle, origin, destination)], [a]) && a.oldPath == before
        && a.newPath == after
  }

  ghost predicate PlannedStep(g: Graph, metric: Metric, origin: NodeId, destination: NodeId, routes: seq<Path>, i: nat)
    requires 1 <= i < |routes|
  {
    SinglePlan(g, metric, origin, destination, routes[i - 1], routes[i])
  }

  /** Routes driven over a run of single-vehicle cycles. */
  ghost predicate RerouteRun(g: Graph, metric: Metric, origin: NodeId, destination: NodeId, routes: seq<Path>) {
    forall i :: 1 <= i < |routes| ==> PlannedStep(g, metric, origin, destination, routes, i)
  }

  /** The route stays, or a cheaper simple route replaces it. */
  ghost predicate Falls(g: Graph, origin: NodeId, destination: NodeId, before: Path, after: Path) {
    || after == before
    || (PathCost(g, after, map[]).Less(PathCost(g, before, map[])) && IsRoute(g, after, origin, destination)
        && Simple(after))
  }

  lemma SinglePlanGains(g: Graph, metric: Metric, origin: NodeId, destination: NodeId, before: Path, after: Path)
    requires HonestGraph(g) && SinglePlan(g, metric, origin, destination, before, after)
    ensures Falls(g, origin, destination, before, after)
  {
    var a, vehicle :| PlannedInOrder(g, metric, [Trip(vehicle, origin, destination)], [a]) && a.oldPath == before
        && a.newPath == after;
    assert [a][..0] == [];
    PlanMakesRealGains(g, metric, [Trip(vehicle, origin, destination)], [a], 0);
    assert PlannedAt(g, metric, [Trip(vehicle, origin, destination)], [a], 0);
    PlannedIsChosen(g, metric, [Trip(vehicle, origin, destination)], [a], 0);
  }

  lemma RunStepFalls(g: Graph, metric: Metric, origin: NodeId, destination: NodeId, routes: seq<Path>, i: nat)
    requires HonestGraph(g) && RerouteRun(g, metric, origin, destination, routes) && 1 <= i < |routes|
    ensures Falls(g, origin, destination, routes[i - 1], routes[i])
  {
    assert PlannedStep(g, metric, origin, destination, routes, i);
    SinglePlanGains(g, metric, origin, destination, routes[i - 1], routes[i]);
  }

  /** The last cost is at most the first, and equal only if the routes are the same. */
  ghost predicate Drops(first: Cost, last: Cost, same: bool) {
    last.Leq(first) && (last == first ==> same)
  }

  lemma DropsThen(first: Cost, middle: Cost, last: Cost, sameBefore: bool, sameAfter: bool, same: bool)
    requires Drops(first, middle, sameBefore) && Drops(middle, last, sameAfter) && (sameBefore && sameAfter ==> same)
    ensures Drops(first, last, same)
  {
  }

  lemma FallsDrops(g: Graph, origin: NodeId, destination: NodeId, before: Path, after: Path)
    requires Falls(g, origin, destination, before, after)
    ensures Drops(PathCost(g, before, map[]), PathCost(g, after, map[]), after == before)
  {
  }

  ghost predicate DropsAt(g: Graph, routes: seq<Path>, i: nat)
    requires 1 <= i < |routes|
  {
    Drops(PathCost(g, routes[i - 1], map[]), PathCost(g, routes[i], map[]), routes[i] == routes[i - 1])
  }

  ghost predicate DropsThroughout(g: Graph, routes: seq<Path>) {
    forall i :: 1 <= i < |routes| ==> DropsAt(g, routes, i)
  }

  lemma RunDrops(g: Graph, metric: Metric, origin: NodeId, destination: NodeId, routes: seq<Path>)
    requires HonestGraph(g) && RerouteRun(g, metric, origin, destination, routes)
    ensures DropsThroughout(g, routes)
  {
    forall i | 1 <= i < |routes|
      ensures DropsAt(g, routes, i)
    {
      RunStepFalls(g, metric, origin, destination, routes, i);
      FallsDrops(g, origin, destination, routes[i - 1], routes[i]);
    }
  }

  lemma {:induction false} CostsFall(g: Graph, routes: seq<Path>, i: nat, j: nat)
    requires DropsThroughout(g, routes) && i <= j < |routes|
    ensures Drops(PathCost(g, routes[i], map[]), PathCost(g, routes[j], map[]), routes[j] == routes[i])
    decreases j - i
  {
    if i < j {
      CostsFall(g, routes, i, j - 1);
      assert DropsAt(g, routes, j);
      DropsThen(PathCost(g, routes[i], map[]), PathCost(g, routes[j - 1], map[]), PathCost(g, routes[j], map[]),
                routes[j - 1] == routes[i], routes[j] == routes[j - 1], routes[j] == routes[i]);
    }
  }

  /** A route once left is never driven again. */
  lemma NeverRevisitsRoute(g: Graph, metric: Metric, origin: NodeId, destination: NodeId, routes: seq<Path>, i: nat,
                           k: nat, j: nat)
    requires HonestGraph(g) && RerouteRun(g, metric, origin, destination, routes) && i <= k <= j < |routes|
    requires routes[i] == routes[j]
    ensures routes[k] == routes[i]
  {
    RunDrops(g, metric, origin, destination, routes);
    CostsFall(g, routes, i, k);
    CostsFall(g, routes, k, j);
  }

  function Reroutes(routes: seq<Path>): nat {
    if |routes| <= 1 then 0
    else Reroutes(routes[..|routes| - 1]) + (if routes[|routes| - 1] != routes[|routes| - 2] then 1 else 0)
  }

  /** All step sequences of length at most `n` over the steps `steps`. */
  ghost function Sequences(steps: set<PathStep>, n: nat): (all: set<Path>)
    ensures forall path: Path :: |path| <= n && (forall i :: 0 <= i < |path| ==> path[i] in steps) ==> path in all
  {
    if n == 0 then {[]}
    else
      var shorter := Sequences(steps, n - 1);
      var all := shorter + set path, step | path in shorter && step in steps :: path + [step];
      assert forall path: Path :: |path| == n && (forall i :: 0 <= i < |path| ==> path[i] in steps) ==> path in all by {
        forall path: Path | |path| == n && (forall i :: 0 <= i < |path| ==> path[i] in steps)
          ensures path in all
        {
          assert path == path[..n - 1] + [path[n - 1]];
          assert path[..n - 1] in shorter;
        }
      }
      all
  }

  ghost function StepsOf(g: Graph, origin: NodeId): set<PathStep> {
    {PathStep(origin, None)} + set id | id in g.edges :: PathStep(g.edges[id].dst, Some(id))
  }

  /** A bound on reroutes that depends on the map and the origin alone. */
  ghost function RouteBound(g: Graph, origin: NodeId): nat {
    |Sequences(StepsOf(g, origin), |StepsOf(g, origin)|)|
  }

  lemma SimpleRouteIsBounded(g: Graph, path: Path, origin: NodeId, destination: NodeId)
    requires IsRoute(g, path, origin, destination) && Simple(path)
    ensures path in Sequences(StepsOf(g, origin), |StepsOf(g, origin)|)
  {
    var steps := StepsOf(g, origin);
    forall i | 0 <= i < |path|
      ensures path[i] in steps
    {
      if i > 0 {
        assert Follows(g, path[i - 1].node, path[i]);
      }
    }
    DistinctStepsFit(path, steps);
  }

  lemma {:induction false} DistinctStepsFit(path: Path, steps: set<PathStep>)
    requires Simple(path) && forall i :: 0 <= i < |path| ==> path[i] in steps
    ensures |path| <= |steps|
  {
    if path != [] {
      var n := |path| - 1;
      DistinctStepsFit(path[..n], steps - {path[n]});
    }
  }

  lemma RunPrefix(g: Graph, metric: Metric, origin: NodeId, destination: NodeId, routes: seq<Path>)
    requires RerouteRun(g, metric, origin, destination, routes) && routes != []
    ensures RerouteRun(g, metric, origin, destination, routes[..|routes| - 1])
  {
    var shorter := routes[..|routes| - 1];
    forall i | 1 <= i < |shorter|
      ensures PlannedStep(g, metric, origin, destination, shorter, i)
    {
      assert PlannedStep(g, metric, origin, destination, routes, i);
    }
  }

  /** A reroute at the end of a run reaches a bounded simple route not driven before. */
  lemma LastRerouteIsNew(g: Graph, metric: Metric, origin: NodeId, destination: NodeId, routes: seq<Path>)
    requires HonestGraph(g) && RerouteRun(g, metric, origin, destination, routes) && |routes| > 1
    requires routes[|routes| - 1] != routes[|routes| - 2]
    ensures routes[|routes| - 1] !in routes[..|routes| - 1]
    ensures routes[|routes| - 1] in Sequences(StepsOf(g, origin), |StepsOf(g, origin)|)
  {
    var n := |routes| - 1;
    RunStepFalls(g, metric, origin, destination, routes, n);
    SimpleRouteIsBounded(g, routes[n], origin, destination);
    forall k | 0 <= k < n
      ensures routes[k] != routes[n]
    {
      NotDrivenBefore(g, metric, origin, destination, routes, k);
    }
  }

  lemma NotDrivenBefore(g: Graph, metric: Metric, origin: NodeId, destination: NodeId, routes: seq<Path>, k: nat)
    requires HonestGraph(g) && RerouteRun(g, metric, origin, destination, routes) && k + 1 < |routes|
    requires routes[|routes| - 1] != routes[|routes| - 2]
    ensures routes[k] != routes[|routes| - 1]
  {
    if routes[k] == routes[|routes| - 1] {
      NeverRevisitsRoute(g, metric, origin, destination, routes, k, |routes| - 2, |routes| - 1);
    }
  }

  /** The distinct routes reached so far by rerouting. */
  lemma {:induction false} ReroutesReachDistinctRoutes(g: Graph, metric: Metric, origin: NodeId, destination: NodeId,
                                                       routes: seq<Path>)
    returns (reached: set<Path>)
    requires HonestGraph(g) && RerouteRun(g, metric, origin, destination, routes)
    ensures |reached| == Reroutes(routes)
    ensures forall path :: path in reached ==> path in routes
    ensures reached <= Sequences(StepsOf(g, origin), |StepsOf(g, origin)|)
  {
    reached := {};
    if |routes| > 1 {
      var n := |routes| - 1;
      RunPrefix(g, metric, origin, destination, routes);
      reached := ReroutesReachDistinctRoutes(g, metric, origin, destination, routes[..n]);
      if routes[n] != routes[n - 1] {
        LastRerouteIsNew(g, metric, origin, destination, routes);
        assert routes[n] !in reached;
        reached := reached + {routes[n]};
      }
    }
  }

  lemma SubsetNoLarger<T>(small: set<T>, large: set<T>)
    requires small <= large
    ensures |small| <= |large|
  {
    assert large == small + (large - small);
  }

  /** Under fixed metrics rerouting stops: no run, however long, reroutes more often than the bound. */
  lemma ReroutingStops(g: Graph, metric: Metric, origin: NodeId, destination: NodeId, routes: seq<Path>)
    requires HonestGraph(g) && RerouteRun(g, metric, origin, destination, routes)
    ensures Reroutes(routes) <= RouteBound(g, origin)
  {
    var reached := ReroutesReachDistinctRoutes(g, metric, origin, destination, routes);
    SubsetNoLarger(reached, Sequences(StepsOf(g, origin), |StepsOf(g, origin)|));
  }
}
