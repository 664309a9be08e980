/** `find_path` of the routing service: A* over the road graph priced by the composite edge cost. */
module Pathfinder {
  import opened Basics
  import opened RoadGraph
  import opened Routes
  import AStar

  function LoadedPrice(loads: Loads): Edge -> real {
    (e: Edge) => EdgeCost(e, LoadAt(loads, e.id))
  }

  function ProblemFor(g: Graph, metric: Metric, origin: NodeId, destination: NodeId, loads: Loads,
                      useHeuristic: bool): AStar.Problem {
    AStar.Problem(g, origin, destination, LoadedPrice(loads),
                  (n: NodeId) => Heuristic(g, metric, useHeuristic, destination, n))
  }

  /** On routes the search's price is the path cost. */
  lemma {:induction false} PriceIsPathCost(p: AStar.Problem, path: Path, loads: Loads, n: NodeId)
    requires p.price == LoadedPrice(loads) && p.graph.Keyed() && IsRoute(p.graph, path, p.origin, n)
    ensures PathCost(p.graph, path, loads) == Finite(AStar.Price(p, path))
  {
    var last := |path| - 1;
    if last == 0 {
      AStar.PriceOfStart(p, path);
      assert path[..1] == path && path[..0] == [];
    } else {
      RoutePrefix(p.graph, path, p.origin, n, last - 1);
      PriceIsPathCost(p, path[..last], loads, path[last - 1].node);
      assert Follows(p.graph, path[last - 1].node, path[last]);
    }
  }

  ghost predicate CheapestRoute(g: Graph, origin: NodeId, destination: NodeId, loads: Loads, cost: Cost) {
    forall path :: IsRoute(g, path, origin, destination) ==> cost.Leq(PathCost(g, path, loads))
  }

  lemma CheapestPriceIsCheapestCost(p: AStar.Problem, loads: Loads, cost: real)
    requires p.price == LoadedPrice(loads) && p.graph.Keyed()
    requires AStar.CheapestAmongRoutes(p, p.destination, cost)
    ensures CheapestRoute(p.graph, p.origin, p.destination, loads, Finite(cost))
  {
    forall path | IsRoute(p.graph, path, p.origin, p.destination)
      ensures Finite(cost).Leq(PathCost(p.graph, path, loads))
    {
      PriceIsPathCost(p, path, loads, p.destination);
    }
  }

  lemma ConsistentForSearch(g: Graph, metric: Metric, origin: NodeId, destination: NodeId, loads: Loads,
                            useHeuristic: bool)
    requires Consistent(g, metric, useHeuristic, loads, destination)
    ensures AStar.ConsistentEstimate(ProblemFor(g, metric, origin, destination, loads, useHeuristic))
  {
    var p := ProblemFor(g, metric, origin, destination, loads, useHeuristic);
    forall n, e | e in g.EdgesFrom(n)
      ensures AStar.ConsistentStep(p, n, e)
    {
      assert ConsistentEdge(g, metric, useHeuristic, loads, destination, n, e);
    }
  }

  /** What every answer of `find_path` satisfies. */
  ghost predicate Answer(g: Graph, origin: NodeId, destination: NodeId, loads: Loads, path: Path, cost: Cost) {
    && (path == [] ==> cost == Infinite)
    && (path != [] ==> IsRoute(g, path, origin, destination) && Simple(path) && cost == PathCost(g, path, loads))
    && (path == [] <==> origin != destination
                        && (origin !in g.nodes || destination !in g.nodes || !Reachable(g, origin, destination)))
  }

  /** What `find_path` returns: an answer, found by a run of the search when the ends differ and are known, and cheapest
      under a consistent estimate. */
  ghost predicate Found(g: Graph, metric: Metric, origin: NodeId, destination: NodeId, loads: Loads, useHeuristic: bool,
                        path: Path, cost: Cost)
  {
    && Answer(g, origin, destination, loads, path, cost)
    && (origin == destination ==> path == [PathStep(origin, None)] && cost == Finite(0.0))
    && (origin != destination && origin in g.nodes && destination in g.nodes ==>
          AStar.CanReturn(ProblemFor(g, metric, origin, destination, loads, useHeuristic), path, cost))
    && (origin != destination && path != [] && Consistent(g, metric, useHeuristic, loads, destination) ==>
          CheapestRoute(g, origin, destination, loads, cost))
  }

  method FindPath(g: Graph, metric: Metric, origin: NodeId, destination: NodeId, loads: Loads, useHeuristic: bool)
    returns (path: Path, cost: Cost)
    requires g.Keyed()
    ensures Found(g, metric, origin, destination, loads, useHeuristic, path, cost)
  {
    if origin == destination {
      path, cost := [PathStep(origin, None)], Finite(0.0);
      assert path[..0] == [];
      return;
    }
    if origin !in g.nodes || destination !in g.nodes {
      return [], Infinite;
    }
    var p := ProblemFor(g, metric, origin, destination, loads, useHeuristic);
    path, cost := AStar.Search(p);
    if path != [] {
      PriceIsPathCost(p, path, loads, destination);
      if Consistent(g, metric, useHeuristic, loads, destination) {
        ConsistentForSearch(g, metric, origin, destination, loads, useHeuristic);
        CheapestPriceIsCheapestCost(p, loads, cost.v);
      }
    }
  }

  // ---------------------------------------------------------------- parallel edges

  /** Taking another edge at one step changes the cost by the difference of the two. */
  lemma {:induction false} SwappedStepCost(g: Graph, path: Path, loads: Loads, i: nat, step: PathStep)
    requires i < |path| && PathCost(g, path, loads).Finite?
    requires StepCost(g, path[i], loads).Finite? && StepCost(g, step, loads).Finite?
    ensures PathCost(g, path[i := step], loads) ==
            Finite(PathCost(g, path, loads).v - StepCost(g, path[i], loads).v + StepCost(g, step, loads).v)
  {
    var n := |path| - 1;
    if i < n {
      SwappedStepCost(g, path[..n], loads, i, step);
      assert path[i := step][..n] == path[..n][i := step];
    } else {
      assert path[i := step][..n] == path[..n];
    }
  }

  lemma SwappedIsRoute(g: Graph, path: Path, origin: NodeId, destination: NodeId, i: nat, e: Edge)
    requires g.Keyed() && IsRoute(g, path, origin, destination) && 1 <= i < |path|
    requires e in g.EdgesFrom(path[i - 1].node) && e.dst == path[i].node
    ensures e.id in g.edges && g.edges[e.id] == e
    ensures IsRoute(g, path[i := PathStep(e.dst, Some(e.id))], origin, destination)
  {
    g.EdgesFromMembers(path[i - 1].node, e);
    var swapped := path[i := PathStep(e.dst, Some(e.id))];
    forall j | 1 <= j < |swapped|
      ensures Follows(g, swapped[j - 1].node, swapped[j])
    {
      assert Follows(g, path[j - 1].node, path[j]);
    }
  }

  /** Between two nodes of the route found no parallel edge is cheaper than the one taken. */
  lemma NoCheaperParallelEdge(g: Graph, metric: Metric, origin: NodeId, destination: NodeId, loads: Loads,
                              useHeuristic: bool, path: Path, cost: Cost, i: nat, e: Edge)
    requires g.Keyed() && Found(g, metric, origin, destination, loads, useHeuristic, path, cost)
    requires Consistent(g, metric, useHeuristic, loads, destination) && 1 <= i < |path|
    requires e in g.EdgesFrom(path[i - 1].node) && e.dst == path[i].node
    ensures path[i].via.Some? && path[i].via.value in g.edges
    ensures EdgeCost(g.edges[path[i].via.value], LoadAt(loads, path[i].via.value)) <= EdgeCost(e, LoadAt(loads, e.id))
  {
    assert Follows(g, path[i - 1].node, path[i]);
    var step := PathStep(e.dst, Some(e.id));
    SwappedIsRoute(g, path, origin, destination, i, e);
    RouteCostFinite(g, path, origin, destination, loads);
    SwappedStepCost(g, path, loads, i, step);
    assert cost.Leq(PathCost(g, path[i := step], loads));
  }

  /** Of parallel open edges that differ only in their hazard the route takes the least hazardous. */
  lemma LeastHazardousIsTaken(g: Graph, metric: Metric, origin: NodeId, destination: NodeId, loads: Loads,
                              useHeuristic: bool, path: Path, cost: Cost, i: nat, taken: Edge, other: Edge,
                              hazard: real)
    requires g.Keyed() && Found(g, metric, origin, destination, loads, useHeuristic, path, cost)
    requires Consistent(g, metric, useHeuristic, loads, destination) && 1 <= i < |path|
    requires path[i].via == Some(taken.id) && taken.id in g.edges && g.edges[taken.id] == taken
    requires other in g.EdgesFrom(path[i - 1].node) && LoadAt(loads, taken.id) == LoadAt(loads, other.id)
    requires other == taken.(id := other.id, metrics := taken.metrics.(hazardPenalty := hazard)) && Open(taken.metrics)
    ensures taken.metrics.hazardPenalty <= hazard
  {
    assert Follows(g, path[i - 1].node, path[i]);
    NoCheaperParallelEdge(g, metric, origin, destination, loads, useHeuristic, path, cost, i, other);
    var m := taken.metrics;
    var load := LoadAt(loads, taken.id);
    DisturbancesAddUp(taken, load, hazard - m.hazardPenalty, 0.0, m.gpsConfidence, 0.0);
    assert 0.0 / MaxReal(0.3, m.avgSpeed) == 0.0;
    assert EdgeCost(other, load) == EdgeCost(taken.(metrics := m.(hazardPenalty := hazard)), load);
  }
}
