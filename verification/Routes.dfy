/** Routes over a road graph, their cost and travel time, and the straight-line heuristic. */
module Routes {
  import opened Basics
  import opened RoadGraph

  /** A node together with the edge used to arrive there; the first step has no edge. */
  datatype PathStep = PathStep(node: NodeId, via: Option<EdgeId>)

  type Path = seq<PathStep>

  type Loads = map<EdgeId, int>

  function LoadAt(loads: Loads, id: EdgeId): int {
    if id in loads then loads[id] else 0
  }

  // ---------------------------------------------------------------- cost and travel time of a path

  function StepCost(g: Graph, step: PathStep, loads: Loads): Cost {
    match step.via
    case None => Finite(0.0)
    case Some(id) => if id in g.edges then Finite(EdgeCost(g.edges[id], LoadAt(loads, id))) else Infinite
  }

  function PathCost(g: Graph, path: Path, loads: Loads): Cost {
    if path == [] then Finite(0.0)
    else PathCost(g, path[..|path| - 1], loads).Plus(StepCost(g, path[|path| - 1], loads))
  }

  /** The accumulating loop, which stops at the first unknown edge. */
  method ComputePathCost(g: Graph, path: Path, loads: Loads) returns (total: Cost)
    ensures total == PathCost(g, path, loads)
  {
    total := Finite(0.0);
    for i := 0 to |path|
      invariant total.Finite? && total == PathCost(g, path[..i], loads)
    {
      PathCostSnoc(g, path, loads, i);
      match path[i].via {
        case None =>
        case Some(id) =>
          if id !in g.edges {
            UnknownEdgeMakesInfinite(g, path, loads, i);
            return Infinite;
          }
          total := total.Plus(Finite(EdgeCost(g.edges[id], LoadAt(loads, id))));
      }
    }
    assert path[..|path|] == path;
  }

  lemma PathCostSnoc(g: Graph, path: Path, loads: Loads, i: nat)
    requires i < |path|
    ensures PathCost(g, path[..i + 1], loads) == PathCost(g, path[..i], loads).Plus(StepCost(g, path[i], loads))
  {
    assert path[..i + 1][..i] == path[..i];
  }

  lemma {:induction false} UnknownEdgeMakesInfinite(g: Graph, path: Path, loads: Loads, i: nat)
    requires i < |path| && path[i].via.Some? && path[i].via.value !in g.edges
    ensures PathCost(g, path, loads) == Infinite
  {
    if i < |path| - 1 {
      UnknownEdgeMakesInfinite(g, path[..|path| - 1], loads, i);
    }
  }

  function TravelTime(edge: Edge): real {
    edge.length / MaxReal(0.5, edge.metrics.avgSpeed)
  }

  function PathEta(g: Graph, path: Path): real {
    if path == [] then 0.0
    else
      var last := path[|path| - 1].via;
      PathEta(g, path[..|path| - 1])
      + (if last.Some? && last.value in g.edges then TravelTime(g.edges[last.value]) else 0.0)
  }

  /** Unlike the cost, the travel time skips unknown edges. */
  method ComputePathEta(g: Graph, path: Path) returns (total: real)
    ensures total == PathEta(g, path)
  {
    total := 0.0;
    for i := 0 to |path|
      invariant total == PathEta(g, path[..i])
    {
      assert path[..i + 1][..i] == path[..i];
      if path[i].via.Some? && path[i].via.value in g.edges {
        total := total + TravelTime(g.edges[path[i].via.value]);
      }
    }
    assert path[..|path|] == path;
  }

  /** Travel times add up along a path; an edge takes its length at its speed, of at least half a metre per second,
      and an unknown one no time. */
  lemma {:induction false} EtaAddsUp(g: Graph, path: Path, rest: Path)
    ensures PathEta(g, path + rest) == PathEta(g, path) + PathEta(g, rest)
  {
    if rest == [] {
      assert path + rest == path;
    } else {
      EtaAddsUp(g, path, rest[..|rest| - 1]);
      assert (path + rest)[..|path + rest| - 1] == path + rest[..|rest| - 1];
    }
  }

  lemma EtaOfStep(g: Graph, step: PathStep)
    ensures
      var eta := PathEta(g, [step]);
      if step.via.Some? && step.via.value in g.edges then
        var e := g.edges[step.via.value];
        eta * (if e.metrics.avgSpeed >= 0.5 then e.metrics.avgSpeed else 0.5) == e.length
      else eta == 0.0
  {
    assert [step][..0] == [];
  }

  /** Along open edges with sane metrics the travel time never exceeds the cost. */
  lemma {:induction false} EtaNeverExceedsCost(g: Graph, path: Path, loads: Loads)
    requires forall i :: 0 <= i < |path| && path[i].via.Some? ==>
               path[i].via.value in g.edges && SaneEdge(g.edges[path[i].via.value])
               && !Impassable(g.edges[path[i].via.value].metrics)
    ensures Finite(PathEta(g, path)).Leq(PathCost(g, path, loads))
  {
    if path != [] {
      var last := path[|path| - 1].via;
      EtaNeverExceedsCost(g, path[..|path| - 1], loads);
      if last.Some? {
        EdgeCostAtLeastTravelTime(g.edges[last.value], LoadAt(loads, last.value));
        var e := g.edges[last.value];
        SlowerTakesLonger(e.length, MaxReal(0.3, e.metrics.avgSpeed), MaxReal(0.5, e.metrics.avgSpeed));
      }
    }
  }

  /** Loads that are pointwise larger make no path cheaper. */
  lemma PathCostMonotone(g: Graph, path: Path, low: Loads, high: Loads)
    requires forall id :: id in g.edges ==> LoadAt(low, id) <= LoadAt(high, id)
    ensures PathCost(g, path, low).Leq(PathCost(g, path, high))
  {
    PathCostMonotoneOn(g, path, low, high);
  }

  /** Only the loads of the path's own edges matter. */
  lemma {:induction false} PathCostMonotoneOn(g: Graph, path: Path, low: Loads, high: Loads)
    requires forall i :: 0 <= i < |path| && path[i].via.Some? && path[i].via.value in g.edges ==>
                           LoadAt(low, path[i].via.value) <= LoadAt(high, path[i].via.value)
    ensures PathCost(g, path, low).Leq(PathCost(g, path, high))
  {
    if path != [] {
      PathCostMonotoneOn(g, path[..|path| - 1], low, high);
      var last := path[|path| - 1].via;
      if last.Some? && last.value in g.edges {
        EdgeCostMonotoneInLoad(g.edges[last.value], LoadAt(low, last.value), LoadAt(high, last.value));
      }
    }
  }

  // ---------------------------------------------------------------- routes

  /** `step` follows an edge that the adjacency table offers at `from`. */
  ghost predicate Follows(g: Graph, from: NodeId, step: PathStep) {
    && step.via.Some?
    && step.via.value in g.edges
    && g.edges[step.via.value] in g.EdgesFrom(from)
    && g.edges[step.via.value].dst == step.node
  }

  ghost predicate IsRoute(g: Graph, path: Path, origin: NodeId, destination: NodeId) {
    && path != []
    && path[0] == PathStep(origin, None)
    && path[|path| - 1].node == destination
    && forall i :: 1 <= i < |path| ==> Follows(g, path[i - 1].node, path[i])
  }

  ghost predicate Reachable(g: Graph, origin: NodeId, destination: NodeId) {
    exists path :: IsRoute(g, path, origin, destination)
  }

  /** No node is visited twice. */
  ghost predicate Simple(path: Path) {
    forall i, j :: 0 <= i < j < |path| ==> path[i].node != path[j].node
  }

  ghost function NodesOn(path: Path): set<NodeId> {
    set i | 0 <= i < |path| :: path[i].node
  }

  lemma RoutePrefix(g: Graph, path: Path, origin: NodeId, destination: NodeId, k: nat)
    requires IsRoute(g, path, origin, destination) && k < |path|
    ensures IsRoute(g, path[..k + 1], origin, path[k].node)
  {
    var p := path[..k + 1];
    assert forall i :: 0 <= i < |p| ==> p[i] == path[i];
  }

  lemma {:induction false} RouteCostFinite(g: Graph, path: Path, origin: NodeId, destination: NodeId, loads: Loads)
    requires IsRoute(g, path, origin, destination)
    ensures PathCost(g, path, loads).Finite?
  {
    var n := |path| - 1;
    if n == 0 {
      assert path[..0] == [];
    } else {
      RoutePrefix(g, path, origin, destination, n - 1);
      RouteCostFinite(g, path[..n], origin, path[n - 1].node, loads);
      assert Follows(g, path[n - 1].node, path[n]);
    }
  }

  /** In a linked graph a route is connected edge by edge: each edge leaves the node before it. */
  lemma RouteIsConnected(g: Graph, path: Path, origin: NodeId, destination: NodeId, i: nat)
    requires g.Linked() && IsRoute(g, path, origin, destination) && 1 <= i < |path|
    ensures path[i].via.Some? && path[i].via.value in g.edges
    ensures g.edges[path[i].via.value].src == path[i - 1].node
    ensures g.edges[path[i].via.value].dst == path[i].node
  {
    assert Follows(g, path[i - 1].node, path[i]);
    g.EdgesFromMembers(path[i - 1].node, g.edges[path[i].via.value]);
  }

  /** On a simple route no edge is used twice. */
  lemma SimpleRouteUsesEdgesOnce(g: Graph, path: Path, origin: NodeId, destination: NodeId, i: nat, j: nat)
    requires IsRoute(g, path, origin, destination) && Simple(path)
    requires i < j < |path| && path[j].via.Some?
    ensures path[i].via != path[j].via
  {
    if 1 <= i {
      assert Follows(g, path[i - 1].node, path[i]);
      assert Follows(g, path[j - 1].node, path[j]);
    }
  }

  // ---------------------------------------------------------------- the heuristic

  const MAX_SPEED := 13.9

  function NodeDistance(g: Graph, metric: Metric, a: NodeId, b: NodeId): Cost {
    if a in g.nodes && b in g.nodes then Finite(metric(g.nodes[a].position, g.nodes[b].position)) else Infinite
  }

  function Heuristic(g: Graph, metric: Metric, useHeuristic: bool, destination: NodeId, n: NodeId): Cost {
    if !useHeuristic then Finite(0.0)
    else match NodeDistance(g, metric, n, destination)
      case Infinite => Infinite
      case Finite(d) => Finite(d / MAX_SPEED)
  }

  ghost predicate ConsistentEdge(g: Graph, metric: Metric, useHeuristic: bool, loads: Loads, destination: NodeId,
                                 n: NodeId, e: Edge)
  {
    Heuristic(g, metric, useHeuristic, destination, n).Leq(
      Finite(EdgeCost(e, LoadAt(loads, e.id))).Plus(Heuristic(g, metric, useHeuristic, destination, e.dst)))
  }

  /** Moving along an edge lowers the estimate by at most the price of the edge. */
  ghost predicate Consistent(g: Graph, metric: Metric, useHeuristic: bool, loads: Loads, destination: NodeId) {
    forall n, e :: e in g.EdgesFrom(n) ==> ConsistentEdge(g, metric, useHeuristic, loads, destination, n, e)
  }

  ghost predicate IsMetric(metric: Metric) {
    && (forall a, b :: 0.0 <= metric(a, b))
    && (forall a, b :: metric(a, b) == metric(b, a))
    && (forall a :: metric(a, a) == 0.0)
    && (forall a, b, c :: metric(a, c) <= metric(a, b) + metric(b, c))
  }

  /** Both ends of every listed edge are registered nodes. */
  ghost predicate Registered(g: Graph) {
    forall n, e :: e in g.EdgesFrom(n) ==> n in g.nodes && e.dst in g.nodes
  }

  ghost predicate CoversStraightLine(g: Graph, metric: Metric, loads: Loads, n: NodeId, e: Edge)
    requires n in g.nodes && e.dst in g.nodes
  {
    EdgeCost(e, LoadAt(loads, e.id)) >= metric(g.nodes[n].position, g.nodes[e.dst].position) / MAX_SPEED
  }

  /** The straight-line estimate is consistent towards every registered destination exactly when
      each edge costs at least its straight line driven at 13.9 m/s. */
  lemma HeuristicConsistentIff(g: Graph, metric: Metric, loads: Loads)
    requires IsMetric(metric) && Registered(g)
    ensures (forall d :: d in g.nodes ==> Consistent(g, metric, true, loads, d)) <==>
            EveryEdgeCovers(g, metric, loads)
  {
    if forall d :: d in g.nodes ==> Consistent(g, metric, true, loads, d) {
      forall n, e | e in g.EdgesFrom(n)
        ensures CoversStraightLine(g, metric, loads, n, e)
      {
        assert Consistent(g, metric, true, loads, e.dst);
        assert ConsistentEdge(g, metric, true, loads, e.dst, n, e);
        assert metric(g.nodes[e.dst].position, g.nodes[e.dst].position) == 0.0;
      }
    }
    if EveryEdgeCovers(g, metric, loads) {
      forall d, n, e | d in g.nodes && e in g.EdgesFrom(n)
        ensures ConsistentEdge(g, metric, true, loads, d, n, e)
      {
        CoveringEdgeIsConsistent(g, metric, loads, d, n, e);
      }
    }
  }

  lemma CoveringEdgeIsConsistent(g: Graph, metric: Metric, loads: Loads, d: NodeId, n: NodeId, e: Edge)
    requires IsMetric(metric) && n in g.nodes && e.dst in g.nodes && d in g.nodes
      && CoversStraightLine(g, metric, loads, n, e)
    ensures ConsistentEdge(g, metric, true, loads, d, n, e)
  {
    var a, b, c := g.nodes[n].position, g.nodes[e.dst].position, g.nodes[d].position;
    DivideMonotone(metric(a, c), metric(a, b) + metric(b, c), MAX_SPEED);
  }

  ghost predicate EveryEdgeCovers(g: Graph, metric: Metric, loads: Loads)
    requires Registered(g)
  {
    forall n, e :: e in g.EdgesFrom(n) ==> CoversStraightLine(g, metric, loads, n, e)
  }

  /** The estimate never exceeds the cost of a route: what "admissible" says. */
  ghost predicate Admissible(g: Graph, metric: Metric, loads: Loads) {
    forall n, d, path {:trigger IsRoute(g, path, n, d)} ::
      n in g.nodes && d in g.nodes && IsRoute(g, path, n, d) ==>
          Heuristic(g, metric, true, d, n).Leq(PathCost(g, path, loads))
  }

  lemma {:induction false} StraightLineBelowRoute(g: Graph, metric: Metric, loads: Loads, path: Path, n: NodeId,
                                                  d: NodeId)
    requires IsMetric(metric) && Registered(g) && g.Keyed() && EveryEdgeCovers(g, metric, loads)
    requires n in g.nodes && d in g.nodes && IsRoute(g, path, n, d)
    ensures Heuristic(g, metric, true, d, n).Leq(PathCost(g, path, loads))
  {
    var last := |path| - 1;
    RouteCostFinite(g, path, n, d, loads);
    if last == 0 {
      assert path[..0] == [];
      assert metric(g.nodes[n].position, g.nodes[n].position) == 0.0;
    } else {
      var prev := path[last - 1].node;
      RoutePrefix(g, path, n, d, last - 1);
      assert Follows(g, prev, path[last]);
      var e := g.edges[path[last].via.value];
      assert e in g.EdgesFrom(prev) && CoversStraightLine(g, metric, loads, prev, e);
      StraightLineBelowRoute(g, metric, loads, path[..last], n, prev);
      var a, b, c := g.nodes[n].position, g.nodes[prev].position, g.nodes[d].position;
      DivideMonotone(metric(a, c), metric(a, b) + metric(b, c), MAX_SPEED);
    }
  }

  /** The edge as a route of its own. */
  lemma EdgeIsRoute(g: Graph, loads: Loads, n: NodeId, e: Edge)
    requires g.Keyed() && e in g.EdgesFrom(n)
    ensures
      var path := [PathStep(n, None), PathStep(e.dst, Some(e.id))];
      IsRoute(g, path, n, e.dst) && PathCost(g, path, loads) == Finite(EdgeCost(e, LoadAt(loads, e.id)))
  {
    var path := [PathStep(n, None), PathStep(e.dst, Some(e.id))];
    g.EdgesFromMembers(n, e);
    assert Follows(g, path[0].node, path[1]);
    OneEdgeCost(g, path, loads);
  }

  /** The straight-line estimate is admissible towards every registered destination exactly when each edge costs at
      least its straight line driven at 13.9 m/s. */
  lemma HeuristicAdmissibleIff(g: Graph, metric: Metric, loads: Loads)
    requires IsMetric(metric) && Registered(g) && g.Keyed()
    ensures Admissible(g, metric, loads) <==> EveryEdgeCovers(g, metric, loads)
  {
    if Admissible(g, metric, loads) {
      forall n, e | e in g.EdgesFrom(n)
        ensures CoversStraightLine(g, metric, loads, n, e)
      {
        EdgeIsRoute(g, loads, n, e);
        assert IsRoute(g, [PathStep(n, None), PathStep(e.dst, Some(e.id))], n, e.dst);
      }
    }
    if EveryEdgeCovers(g, metric, loads) {
      forall n, d, path | n in g.nodes && d in g.nodes && IsRoute(g, path, n, d)
        ensures Heuristic(g, metric, true, d, n).Leq(PathCost(g, path, loads))
      {
        StraightLineBelowRoute(g, metric, loads, path, n, d);
      }
    }
  }

  /** Without the heuristic, consistency says no listed edge has a negative price. */
  lemma ZeroHeuristicConsistentIff(g: Graph, metric: Metric, loads: Loads, destination: NodeId)
    ensures Consistent(g, metric, false, loads, destination) <==>
            forall n, e :: e in g.EdgesFrom(n) ==> EdgeCost(e, LoadAt(loads, e.id)) >= 0.0
  {
    forall n, e | e in g.EdgesFrom(n)
      ensures ConsistentEdge(g, metric, false, loads, destination, n, e) <==> EdgeCost(e, LoadAt(loads, e.id)) >= 0.0
    {
    }
    if Consistent(g, metric, false, loads, destination) {
      forall n, e | e in g.EdgesFrom(n)
        ensures EdgeCost(e, LoadAt(loads, e.id)) >= 0.0
      {
        assert ConsistentEdge(g, metric, false, loads, destination, n, e);
      }
    }
  }

  /** What a map and a metrics feed must respect: lengths no shorter than the straight line, speeds
      up to 13.9 m/s, penalties that are delays, and closed edges short enough for the closure price. */
  ghost predicate Calibrated(g: Graph, metric: Metric, n: NodeId, e: Edge)
    requires n in g.nodes && e.dst in g.nodes
  {
    var straight := metric(g.nodes[n].position, g.nodes[e.dst].position);
    && SaneEdge(e)
    && e.length >= straight
    && e.metrics.avgSpeed <= MAX_SPEED
    && (Impassable(e.metrics) ==> CLOSURE_COST >= straight / MAX_SPEED)
  }

  lemma CalibratedCoversStraightLine(g: Graph, metric: Metric, loads: Loads, n: NodeId, e: Edge)
    requires n in g.nodes && e.dst in g.nodes && IsMetric(metric) && Calibrated(g, metric, n, e)
    ensures CoversStraightLine(g, metric, loads, n, e)
  {
    if !Impassable(e.metrics) {
      EdgeCostAtLeastTravelTime(e, LoadAt(loads, e.id));
      var straight := metric(g.nodes[n].position, g.nodes[e.dst].position);
      var speed := MaxReal(0.3, e.metrics.avgSpeed);
      DivideMonotone(straight, e.length, MAX_SPEED);
      SlowerTakesLonger(e.length, speed, MAX_SPEED);
    }
  }

  lemma SlowerTakesLonger(length: real, slow: real, fast: real)
    requires length >= 0.0 && 0.0 < slow <= fast
    ensures length / fast <= length / slow
  {
    var t := length / slow;
    assert t >= 0.0 by { DivideMonotone(0.0, length, slow); }
    assert t * slow == length;
    assert t * slow <= t * fast;
    DivideMonotone(t * slow, t * fast, fast);
    assert t * fast / fast == t;
  }

  lemma CalibratedGraphIsConsistent(g: Graph, metric: Metric, loads: Loads, destination: NodeId)
    requires IsMetric(metric) && Registered(g) && destination in g.nodes
    requires forall n, e :: e in g.EdgesFrom(n) ==> Calibrated(g, metric, n, e)
    ensures Consistent(g, metric, true, loads, destination)
  {
    forall n, e | e in g.EdgesFrom(n)
      ensures CoversStraightLine(g, metric, loads, n, e)
    {
      CalibratedCoversStraightLine(g, metric, loads, n, e);
    }
    HeuristicConsistentIff(g, metric, loads);
  }

  /** 278 m driven at 27.8 m/s. */
  const FAST_EDGE := Edge("e", "a", "b", 278.0, 40, EdgeMetrics(27.8, 0, 0.0, 0.0, 1.0, 0.0, false))

  const FAST_PATH: Path := [PathStep("a", None), PathStep("b", Some("e"))]

  function FastGraph(a: Position, b: Position): Graph {
    Graph(map["a" := Node("a", a), "b" := Node("b", b)], map["e" := FAST_EDGE], map["a" := ["e"]])
  }

  lemma FastEdgeCost()
    ensures EdgeCost(FAST_EDGE, 0) == 10.0
  {
    assert LoadRatio(0, 40) == 0.0;
  }

  lemma FastPathIsRoute(g: Graph)
    requires g.edges == map["e" := FAST_EDGE] && g.adjacency == map["a" := ["e"]]
    ensures IsRoute(g, FAST_PATH, "a", "b")
  {
    assert "e" in g.adjacency["a"];
    g.EdgesFromMembers("a", FAST_EDGE);
    assert g.edges["e"] in g.EdgesFrom("a");
    assert Follows(g, FAST_PATH[0].node, FAST_PATH[1]);
  }

  lemma OneEdgeCost(g: Graph, path: Path, loads: Loads)
    requires |path| == 2 && path[0].via == None
    ensures PathCost(g, path, loads) == Finite(0.0).Plus(StepCost(g, path[1], loads))
  {
    assert path[..1][..0] == [];
    assert PathCost(g, path[..1], loads) == Finite(0.0);
  }

  /** Above 13.9 m/s the "admissible" estimate overshoots: the drive takes 10 s, the estimate is 20 s. */
  lemma FastEdgeBreaksAdmissibility(g: Graph, metric: Metric, path: Path, a: Position, b: Position)
    requires metric(a, b) == 278.0 && g == FastGraph(a, b) && path == FAST_PATH
    ensures IsRoute(g, path, "a", "b")
    ensures PathCost(g, path, map[]) == Finite(10.0)
    ensures Heuristic(g, metric, true, "b", "a") == Finite(20.0)
  {
    FastPathIsRoute(g);
    FastEdgeCost();
    OneEdgeCost(g, path, map[]);
  }
}
