/** The road graph of services/routing/marga_routing: nodes, edges with live metrics, the
    adjacency table, and the composite edge cost.  `Cost` is a real number or Python's inf. */
module RoadGraph {
  import opened Basics

  type NodeId = string
  type EdgeId = string

  // ---------------------------------------------------------------- costs with infinity

  datatype Cost = Finite(v: real) | Infinite {
    predicate Leq(other: Cost) {
      other.Infinite? || (this.Finite? && this.v <= other.v)
    }

    predicate Less(other: Cost) {
      this.Finite? && (other.Infinite? || this.v < other.v)
    }

    function Plus(other: Cost): Cost {
      if this.Finite? && other.Finite? then Finite(this.v + other.v) else Infinite
    }
  }

  // ---------------------------------------------------------------- data model

  datatype Node = Node(id: NodeId, position: Position)

  /** The live metrics the cost function and the planner read. */
  datatype EdgeMetrics = EdgeMetrics(
    avgSpeed: real,
    vehicleCount: int,
    capacityRatio: real,
    hazardPenalty: real,
    gpsConfidence: real,
    downstreamCongestion: real,
    closure: bool)

  datatype Edge = Edge(
    id: EdgeId,
    src: NodeId,
    dst: NodeId,
    length: real,
    capacity: int,
    metrics: EdgeMetrics)

  /** A snapshot of the graph tables: `adjacency[n]` lists edge ids in insertion order. */
  datatype Graph = Graph(
    nodes: map<NodeId, Node>,
    edges: map<EdgeId, Edge>,
    adjacency: map<NodeId, seq<EdgeId>>)
  {
    /** Every edge sits under its own id. */
    ghost predicate Keyed() {
      forall k :: k in edges ==> edges[k].id == k
    }

    /** Every edge listed under a node leaves that node. */
    ghost predicate Linked() {
      forall n, k :: n in adjacency && k in adjacency[n] && k in edges ==> edges[k].src == n
    }

    /** Every edge is listed under its own source. */
    ghost predicate Listed() {
      forall k :: k in edges ==> edges[k].src in adjacency && k in adjacency[edges[k].src]
    }

    function EdgesFrom(n: NodeId): seq<Edge> {
      if n in adjacency then Lookup(adjacency[n]) else []
    }

    function Lookup(ids: seq<EdgeId>): seq<Edge> {
      if ids == [] then []
      else if ids[0] in edges then [edges[ids[0]]] + Lookup(ids[1..])
      else Lookup(ids[1..])
    }

    lemma {:induction false} LookupMembers(ids: seq<EdgeId>, e: Edge)
      ensures e in Lookup(ids) <==> exists k :: k in ids && k in edges && edges[k] == e
    {
      if ids != [] {
        LookupMembers(ids[1..], e);
        assert ids == [ids[0]] + ids[1..];
        assert forall k :: k in ids <==> k == ids[0] || k in ids[1..];
      }
    }

    /** The offered edges are the listed ids that are still in the edge table. */
    lemma EdgesFromMembers(n: NodeId, e: Edge)
      ensures e in EdgesFrom(n) <==> n in adjacency && exists k :: k in adjacency[n] && k in edges && edges[k] == e
    {
      if n in adjacency {
        LookupMembers(adjacency[n], e);
      }
    }
  }

  /** `after` is `before` with the edge entered and listed under its source. */
  lemma AddedIsLinkedIff(before: Graph, after: Graph, edge: Edge)
    requires before.Linked() && after.edges == before.edges[edge.id := edge]
    requires after.adjacency == before.adjacency[edge.src :=
                                  (if edge.src in before.adjacency then before.adjacency[edge.src] else []) + [edge.id]]
    ensures after.Linked() <==> forall n :: n in before.adjacency && edge.id in before.adjacency[n] ==> n == edge.src
  {
    if n, k :| n in after.adjacency && k in after.adjacency[n] && k in after.edges && after.edges[k].src != n {
      assert k == edge.id && n in before.adjacency && k in before.adjacency[n];
    } else {
      forall n | n in before.adjacency && edge.id in before.adjacency[n]
        ensures n == edge.src
      {
        assert n in after.adjacency && edge.id in after.adjacency[n] && after.edges[edge.id].src == n;
      }
    }
  }

  /** The mutable graph object: three tables changed by `AddNode`, `AddEdge` and `IngestMetrics`. */
  class MobilityGraph {
    var nodes: map<NodeId, Node>
    var edges: map<EdgeId, Edge>
    var adjacency: map<NodeId, seq<EdgeId>>

    ghost function Snapshot(): Graph
      reads this
    {
      Graph(nodes, edges, adjacency)
    }

    ghost predicate Valid()
      reads this
    {
      Snapshot().Keyed() && Snapshot().Listed()
    }

    constructor ()
      ensures Snapshot() == Graph(map[], map[], map[])
      ensures Valid() && Snapshot().Linked()
    {
      nodes, edges, adjacency := map[], map[], map[];
    }

    method AddNode(node: Node)
      modifies this
      ensures nodes == old(nodes)[node.id := node] && edges == old(edges)
      ensures adjacency == if node.id in old(adjacency) then old(adjacency) else old(adjacency)[node.id := []]
      ensures old(Valid()) ==> Valid()
      ensures old(Snapshot().Linked()) ==> Snapshot().Linked()
    {
      nodes := nodes[node.id := node];
      if node.id !in adjacency {
        adjacency := adjacency[node.id := []];
      }
    }

    /** Re-adding an id under another source leaves the old listing behind: `Linked` survives
        exactly when no other node already lists the id. */
    method AddEdge(edge: Edge)
      modifies this
      ensures nodes == old(nodes) && edges == old(edges)[edge.id := edge]
      ensures adjacency == old(adjacency)[edge.src :=
                                          (if edge.src in old(adjacency) then old(adjacency)[edge.src] else [])
                                              + [edge.id]]
      ensures old(Snapshot().Keyed()) ==> Snapshot().Keyed()
      ensures old(Valid()) && (edge.id in old(edges) ==> old(edges)[edge.id].src == edge.src) ==> Valid()
      ensures old(Snapshot().Linked()) ==>
                (Snapshot().Linked() <==>
                 forall n :: n in old(adjacency) && edge.id in old(adjacency)[n] ==> n == edge.src)
    {
      edges := edges[edge.id := edge];
      if edge.src !in adjacency {
        adjacency := adjacency[edge.src := []];
      }
      adjacency := adjacency[edge.src := adjacency[edge.src] + [edge.id]];
      if old(Snapshot().Linked()) {
        AddedIsLinkedIff(old(Snapshot()), Snapshot(), edge);
      }
    }

    method IngestMetrics(id: EdgeId, metrics: EdgeMetrics)
      modifies this
      ensures nodes == old(nodes) && adjacency == old(adjacency)
      ensures edges == if id in old(edges) then old(edges)[id := old(edges)[id].(metrics := metrics)] else old(edges)
      ensures old(Valid()) ==> Valid()
      ensures old(Snapshot().Linked()) ==> Snapshot().Linked()
    {
      if id in edges {
        edges := edges[id := edges[id].(metrics := metrics)];
      }
    }
  }

  // ---------------------------------------------------------------- edge cost

  const CONGESTION_THRESHOLD := 0.70
  const CONGESTION_SCALE := 120.0
  const HAZARD_SCALE := 60.0
  const UNCERTAINTY_SCALE := 15.0
  const CLOSURE_COST := 3600.0
  const MATERIAL_IMPROVEMENT_RATIO := 0.20
  const CRITICAL_HAZARD_THRESHOLD := 0.70

  predicate Impassable(m: EdgeMetrics) {
    m.closure || (m.capacityRatio >= 1.0 && m.avgSpeed < 0.3)
  }

  function LoadRatio(load: int, capacity: int): real {
    load as real / (if capacity >= 1 then capacity else 1) as real
  }

  function CongestionPenalty(ratio: real): real {
    if ratio > CONGESTION_THRESHOLD then
      var x := (ratio - CONGESTION_THRESHOLD) / (1.0 - CONGESTION_THRESHOLD);
      x * x * CONGESTION_SCALE
    else 0.0
  }

  /** Seconds of travel plus penalties; `load` is the extra vehicles already assigned. */
  function EdgeCost(edge: Edge, load: int): real {
    var m := edge.metrics;
    if Impassable(m) then CLOSURE_COST
    else
      var travelTime := edge.length / MaxReal(0.3, m.avgSpeed);
      var ratio := MinReal(1.0, m.capacityRatio + LoadRatio(load, edge.capacity));
      var hazard := m.hazardPenalty * HAZARD_SCALE;
      var uncertainty := MaxReal(0.0, 1.0 - m.gpsConfidence) * UNCERTAINTY_SCALE;
      var downstream := m.downstreamCongestion * 10.0;
      travelTime + CongestionPenalty(ratio) + hazard + uncertainty + downstream
  }

  datatype Reason = NoReason | Closure | CriticalHazard | MaterialImprovement | NoAlternative

  /** Python compares (old - new) / old: with old = inf the quotient is nan or never >= 0.2. */
  predicate Improves(oldCost: Cost, newCost: Cost) {
    && oldCost.Finite? && newCost.Finite? && oldCost.v > 0.0
    && (oldCost.v - newCost.v) / oldCost.v >= MATERIAL_IMPROVEMENT_RATIO
  }

  function ShouldReroute(oldCost: Cost, newCost: Cost, hazard: real, closed: bool): Reason {
    if closed then Closure
    else if hazard >= CRITICAL_HAZARD_THRESHOLD then CriticalHazard
    else if Improves(oldCost, newCost) then MaterialImprovement
    else NoReason
  }

  // ---------------------------------------------------------------- facts about the cost

  lemma LoadRatioMonotone(l1: int, l2: int, capacity: int)
    requires l1 <= l2
    ensures LoadRatio(l1, capacity) <= LoadRatio(l2, capacity)
  {
    var c := (if capacity >= 1 then capacity else 1) as real;
    assert l1 as real <= l2 as real;
    DivideMonotone(l1 as real, l2 as real, c);
  }

  lemma DivideMonotone(a: real, b: real, c: real)
    requires a <= b && c > 0.0
    ensures a / c <= b / c
  {
    assert (b - a) / c >= 0.0;
    assert (b - a) / c == b / c - a / c;
  }

  lemma SquareMonotone(a: real, b: real)
    requires 0.0 <= a <= b
    ensures a * a <= b * b
  {
    assert a * a <= a * b;
    assert a * b <= b * b;
  }

  lemma CongestionMonotone(r1: real, r2: real)
    requires r1 <= r2
    ensures 0.0 <= CongestionPenalty(r1) <= CongestionPenalty(r2)
  {
    if r1 > CONGESTION_THRESHOLD {
      var d := 1.0 - CONGESTION_THRESHOLD;
      var x1 := (r1 - CONGESTION_THRESHOLD) / d;
      var x2 := (r2 - CONGESTION_THRESHOLD) / d;
      DivideMonotone(0.0, r1 - CONGESTION_THRESHOLD, d);
      DivideMonotone(r1 - CONGESTION_THRESHOLD, r2 - CONGESTION_THRESHOLD, d);
      SquareMonotone(0.0, x1);
      SquareMonotone(x1, x2);
    } else if r2 > CONGESTION_THRESHOLD {
      var d := 1.0 - CONGESTION_THRESHOLD;
      DivideMonotone(0.0, r2 - CONGESTION_THRESHOLD, d);
      SquareMonotone(0.0, (r2 - CONGESTION_THRESHOLD) / d);
    }
  }

  /** More assigned vehicles never make an edge cheaper. */
  lemma EdgeCostMonotoneInLoad(edge: Edge, l1: int, l2: int)
    requires l1 <= l2
    ensures EdgeCost(edge, l1) <= EdgeCost(edge, l2)
  {
    LoadRatioMonotone(l1, l2, edge.capacity);
    var a := edge.metrics.capacityRatio + LoadRatio(l1, edge.capacity);
    var b := edge.metrics.capacityRatio + LoadRatio(l2, edge.capacity);
    CongestionMonotone(MinReal(1.0, a), MinReal(1.0, b));
  }

  // ---------------------------------------------------------------- what the cost charges for

  /** A closed edge, and a full one on which nothing moves, costs an hour whatever else is known of it. */
  lemma ClosedCostsAnHour(edge: Edge, load: int)
    requires edge.metrics.closure || (edge.metrics.capacityRatio >= 1.0 && edge.metrics.avgSpeed < 0.3)
    ensures EdgeCost(edge, load) == 3600.0
  {
  }

  /** Neither closed nor jammed to a standstill. */
  predicate Open(m: EdgeMetrics) {
    !m.closure && (m.capacityRatio < 1.0 || m.avgSpeed >= 0.3)
  }

  /** On an open edge each disturbance costs its own time: a minute for a full hazard, ten seconds for full congestion
      downstream, fifteen for a lost position, and every further metre its driving time. */
  lemma DisturbancesAddUp(edge: Edge, load: int, hazard: real, downstream: real, confidence: real, metres: real)
    requires Open(edge.metrics)
    ensures
      var m := edge.metrics.(hazardPenalty := edge.metrics.hazardPenalty + hazard,
                             downstreamCongestion := edge.metrics.downstreamCongestion + downstream,
                             gpsConfidence := confidence);
      EdgeCost(edge.(metrics := m, length := edge.length + metres), load)
      == EdgeCost(edge, load) + 60.0 * hazard + 10.0 * downstream
         + (15.0 * MaxReal(0.0, 1.0 - confidence) - 15.0 * MaxReal(0.0, 1.0 - edge.metrics.gpsConfidence))
         + metres / MaxReal(0.3, edge.metrics.avgSpeed)
  {
    var v := MaxReal(0.3, edge.metrics.avgSpeed);
    assert (edge.length + metres) / v == edge.length / v + metres / v;
  }

  /** An undisturbed edge up to seven tenths of its capacity costs its driving time. */
  lemma UndisturbedCostsTheDrive(edge: Edge, load: int)
    requires Open(edge.metrics) && edge.metrics.hazardPenalty == 0.0 && edge.metrics.downstreamCongestion == 0.0
    requires edge.metrics.gpsConfidence >= 1.0 && edge.metrics.capacityRatio + LoadRatio(load, edge.capacity) <= 0.7
    ensures EdgeCost(edge, load) == edge.length / MaxReal(0.3, edge.metrics.avgSpeed)
  {
  }

  /** The extra load counts as a share of the capacity, of one vehicle if there is none. */
  lemma LoadIsAShare(load: int, capacity: int)
    ensures LoadRatio(load, capacity) * (if capacity >= 1 then capacity else 1) as real == load as real
  {
  }

  /** Above that a share `x` of the remaining three tenths costs two minutes times its square, up to two minutes. */
  lemma CrowdingCosts(edge: Edge, load: int, calm: int, x: real)
    requires Open(edge.metrics) && edge.metrics.capacityRatio + LoadRatio(calm, edge.capacity) <= 0.7
    requires edge.metrics.capacityRatio + LoadRatio(load, edge.capacity) == 0.7 + 0.3 * x && x >= 0.0
    ensures EdgeCost(edge, load) == EdgeCost(edge, calm) + 120.0 * (if x <= 1.0 then x * x else 1.0)
  {
    if x <= 1.0 {
      assert (0.7 + 0.3 * x - CONGESTION_THRESHOLD) / (1.0 - CONGESTION_THRESHOLD) == x;
    }
  }

  /** What a metrics feed must respect for the penalties to be delays. */
  predicate SaneEdge(edge: Edge) {
    edge.length >= 0.0 && edge.metrics.hazardPenalty >= 0.0 && edge.metrics.downstreamCongestion >= 0.0
  }

  /** On sane metrics an open edge costs at least its travel time, whatever the load. */
  lemma EdgeCostAtLeastTravelTime(edge: Edge, load: int)
    requires SaneEdge(edge) && !Impassable(edge.metrics)
    ensures EdgeCost(edge, load) >= edge.length / MaxReal(0.3, edge.metrics.avgSpeed) >= 0.0
  {
    var ratio := MinReal(1.0, edge.metrics.capacityRatio + LoadRatio(load, edge.capacity));
    CongestionMonotone(ratio, ratio);
    DivideMonotone(0.0, edge.length, MaxReal(0.3, edge.metrics.avgSpeed));
    assert MaxReal(0.0, 1.0 - edge.metrics.gpsConfidence) * UNCERTAINTY_SCALE >= 0.0;
  }
}
