/** What an overshooting estimate costs: a graph on which the search returns a dearer route than the cheapest. */
module FastDetour {
  import opened Basics
  import opened RoadGraph
  import opened Routes
  import opened AStar
  import Pathfinder

  // ---------------------------------------------------------------- a direct edge and a detour

  /** The origin has two edges, one straight to the destination and one to another node whose estimate makes it look
      worse. */
  ghost predicate DirectLooksBetter(p: Problem, direct: Edge, side: Edge) {
    && p.graph.EdgesFrom(p.origin) == [direct, side]
    && p.origin != p.destination && direct.dst == p.destination
    && side.dst != p.origin && side.dst != p.destination
    && Finite(p.price(direct)).Plus(p.estimate(p.destination)).Less(Finite(p.price(side)).Plus(p.estimate(side.dst)))
  }

  function DirectRoute(p: Problem, direct: Edge): Path {
    [PathStep(p.origin, None), PathStep(direct.dst, Some(direct.id))]
  }

  lemma StartPops(p: Problem, item: Item, rest: seq<Item>)
    requires Pops([StartItem(p)], item, rest)
    ensures item == StartItem(p) && rest == []
  {
  }

  /** After the first round both targets are on the heap. */
  lemma FirstRound(p: Problem, direct: Edge, side: Edge, b: Frame)
    requires DirectLooksBetter(p, direct, side) && Steps(p, StartFrame(p), b)
    ensures b.open == [Child(p, StartItem(p), direct), Child(p, StartItem(p), side)] && p.destination !in b.closed
  {
    var item, rest :| Pops(StartFrame(p).open, item, rest)
      && if item.node in StartFrame(p).closed then b == StartFrame(p).(open := rest)
         else item.node != p.destination && b == Expanded(p, StartFrame(p).closed, item, rest, StartFrame(p).best);
    StartPops(p, item, rest);
    var edges := [direct, side];
    assert edges[..2] == edges && edges[..1] == [direct] && edges[..0] == [];
    PushedNext(p, {p.origin}, item, edges, 0, [], StartFrame(p).best);
    PushedNext(p, {p.origin}, item, edges, 1, [], StartFrame(p).best);
    assert map[p.origin := item].Keys == {p.origin};
  }

  lemma DirectPops(p: Problem, direct: Edge, side: Edge, open: seq<Item>, item: Item, rest: seq<Item>)
    requires DirectLooksBetter(p, direct, side) && Pops(open, item, rest)
    requires open == [Child(p, StartItem(p), direct), Child(p, StartItem(p), side)]
    ensures item == open[0]
  {
    assert open[0].f.Less(open[1].f);
    assert item.f.Leq(open[0].f);
  }

  /** Then every run of the search returns the direct edge, whatever the other costs. */
  lemma DirectIsReturned(p: Problem, direct: Edge, side: Edge, path: Path, cost: Cost)
    requires DirectLooksBetter(p, direct, side) && CanReturn(p, path, cost)
    ensures path == DirectRoute(p, direct) && cost == Finite(p.price(direct))
  {
    var frames :| RunEnds(p, frames, path, cost);
    StartDoesNotEnd(p, path, cost);
    assert StepsAt(p, frames, 1);
    FirstRound(p, direct, side, frames[1]);
    if |frames| > 2 {
      assert StepsAt(p, frames, 2);
      NoSecondRound(p, direct, side, frames[1], frames[2]);
    } else {
      EndsDirect(p, direct, side, frames[1], path, cost);
    }
  }

  lemma StartDoesNotEnd(p: Problem, path: Path, cost: Cost)
    requires p.origin != p.destination
    ensures !Ends(p, StartFrame(p), path, cost)
  {
    forall item, rest | Pops(StartFrame(p).open, item, rest)
      ensures item.node != p.destination
    {
      StartPops(p, item, rest);
    }
  }

  lemma NoSecondRound(p: Problem, direct: Edge, side: Edge, a: Frame, b: Frame)
    requires DirectLooksBetter(p, direct, side) && p.destination !in a.closed
    requires a.open == [Child(p, StartItem(p), direct), Child(p, StartItem(p), side)]
    ensures !Steps(p, a, b)
  {
    forall item, rest | Pops(a.open, item, rest)
      ensures item.node == p.destination
    {
      DirectPops(p, direct, side, a.open, item, rest);
    }
  }

  lemma EndsDirect(p: Problem, direct: Edge, side: Edge, a: Frame, path: Path, cost: Cost)
    requires DirectLooksBetter(p, direct, side) && Ends(p, a, path, cost)
    requires a.open == [Child(p, StartItem(p), direct), Child(p, StartItem(p), side)]
    ensures path == DirectRoute(p, direct) && cost == Finite(p.price(direct))
  {
    var item, rest :| Pops(a.open, item, rest) && path == PathTo(item) && cost == Finite(item.g);
    DirectPops(p, direct, side, a.open, item, rest);
    assert PathTo(StartItem(p)) == [PathStep(p.origin, None)];
    assert PathTo(item) == PathTo(StartItem(p)) + [PathStep(direct.dst, Some(direct.id))];
  }

  // ---------------------------------------------------------------- a concrete graph

  function Plain(id: EdgeId, src: NodeId, dst: NodeId, length: real, speed: real): Edge {
    Edge(id, src, dst, length, 40, EdgeMetrics(speed, 0, 0.0, 0.0, 1.0, 0.0, false))
  }

  /** 278 m at 27.8 m/s. */
  const DIRECT := Plain("ab", "a", "b", 278.0, 27.8)

  /** 13.9 m at 13.9 m/s, then 278 m at 55.6 m/s. */
  const SIDE := Plain("am", "a", "m", 13.9, 13.9)
  const FAST := Plain("mb", "m", "b", 278.0, 55.6)

  function DetourGraph(a: Position, m: Position, b: Position): Graph {
    Graph(map["a" := Node("a", a), "m" := Node("m", m), "b" := Node("b", b)],
          map["ab" := DIRECT, "am" := SIDE, "mb" := FAST],
          map["a" := ["ab", "am"], "m" := ["mb"]])
  }

  const DETOUR: Path := [PathStep("a", None), PathStep("m", Some("am")), PathStep("b", Some("mb"))]

  lemma Costs()
    ensures EdgeCost(DIRECT, 0) == 10.0 && EdgeCost(SIDE, 0) == 1.0 && EdgeCost(FAST, 0) == 5.0
  {
    assert LoadRatio(0, 40) == 0.0;
  }

  lemma Edges(g: Graph)
    requires g.edges == map["ab" := DIRECT, "am" := SIDE, "mb" := FAST]
    requires g.adjacency == map["a" := ["ab", "am"], "m" := ["mb"]]
    ensures g.EdgesFrom("a") == [DIRECT, SIDE] && g.EdgesFrom("m") == [FAST]
  {
    var out := ["ab", "am"];
    assert out[1..] == ["am"] && out[1..][1..] == [] && ["mb"][1..] == [];
    assert g.Lookup(out[1..]) == [SIDE] && g.Lookup(["mb"]) == [FAST];
  }

  lemma DetourCost(g: Graph, path: Path)
    requires g.edges == map["ab" := DIRECT, "am" := SIDE, "mb" := FAST] && path == DETOUR
    ensures PathCost(g, path, map[]) == Finite(6.0)
  {
    Costs();
    OneEdgeCost(g, path[..2], map[]);
  }

  /** On 278 m to go the estimate is 20 s and the drive takes 5 s: the search returns a route of 10 s although one of
      6 s exists, however it breaks ties. */
  lemma SearchReturnsDearerRoute(g: Graph, metric: Metric, a: Position, m: Position, b: Position, path: Path,
                                 cost: Cost)
    requires g == DetourGraph(a, m, b) && metric(m, b) == 278.0 && metric(b, b) == 0.0
    requires Pathfinder.Found(g, metric, "a", "b", map[], true, path, cost)
    ensures cost == Finite(10.0)
    ensures IsRoute(g, DETOUR, "a", "b") && PathCost(g, DETOUR, map[]) == Finite(6.0)
  {
    var p := Pathfinder.ProblemFor(g, metric, "a", "b", map[], true);
    Costs();
    Edges(g);
    DirectIsReturned(p, DIRECT, SIDE, path, cost);
    DetourCost(g, DETOUR);
    assert Follows(g, DETOUR[0].node, DETOUR[1]) && Follows(g, DETOUR[1].node, DETOUR[2]);
  }
}
