/** Best-first search with a lazily cleaned heap and a closed set that never reopens, for any edge
    price and any estimate.  The heap is a bag of items popped by least `f`, ties broken arbitrarily. */
module AStar {
  import opened Basics
  import opened RoadGraph
  import opened Routes

  datatype Problem = Problem(
    graph: Graph,
    origin: NodeId,
    destination: NodeId,
    price: Edge -> real,
    estimate: NodeId -> Cost)

  datatype Item = Item(f: Cost, g: real, node: NodeId, via: Option<EdgeId>, parent: Option<Item>)

  function PathTo(item: Item): (path: Path)
    ensures path != []
  {
    (if item.parent.Some? then PathTo(item.parent.value) else []) + [PathStep(item.node, item.via)]
  }

  function StepPrice(p: Problem, step: PathStep): real {
    if step.via.Some? && step.via.value in p.graph.edges then p.price(p.graph.edges[step.via.value]) else 0.0
  }

  function Price(p: Problem, path: Path): real {
    if path == [] then 0.0 else Price(p, path[..|path| - 1]) + StepPrice(p, path[|path| - 1])
  }

  lemma PriceSnoc(p: Problem, path: Path, step: PathStep)
    ensures Price(p, path + [step]) == Price(p, path) + StepPrice(p, step)
  {
    assert (path + [step])[..|path|] == path;
  }

  ghost predicate ConsistentStep(p: Problem, n: NodeId, e: Edge) {
    p.estimate(n).Leq(Finite(p.price(e)).Plus(p.estimate(e.dst)))
  }

  ghost predicate ConsistentEstimate(p: Problem) {
    forall n, e :: e in p.graph.EdgesFrom(n) ==> ConsistentStep(p, n, e)
  }

  // ---------------------------------------------------------------- search invariants

  type Closed = map<NodeId, Item>

  /** An item stands for a priced route whose last hop leaves a closed node. */
  ghost predicate SoundItem(p: Problem, closed: Closed, item: Item) {
    && item.f == Finite(item.g).Plus(p.estimate(item.node))
    && IsRoute(p.graph, PathTo(item), p.origin, item.node)
    && Price(p, PathTo(item)) == item.g
    && (item.parent.Some? ==> item.parent.value.node in closed && closed[item.parent.value.node] == item.parent.value)
  }

  ghost predicate SettledItem(p: Problem, closed: Closed, n: NodeId)
    requires n in closed
  {
    && closed[n].node == n
    && SoundItem(p, closed, closed[n])
    && Simple(PathTo(closed[n]))
    && NodesOn(PathTo(closed[n])) <= closed.Keys
  }

  ghost predicate SoundSearch(p: Problem, closed: Closed, open: seq<Item>) {
    && (forall n {:trigger SettledItem(p, closed, n)} :: n in closed ==> SettledItem(p, closed, n))
    && (forall item {:trigger SoundItem(p, closed, item)} :: item in open ==> SoundItem(p, closed, item))
  }

  ghost predicate EdgeRelaxed(p: Problem, closed: Closed, best: map<NodeId, real>, u: NodeId, e: Edge)
    requires u in closed
  {
    e.dst in closed || (e.dst in best && best[e.dst] <= closed[u].g + p.price(e))
  }

  ghost predicate Relaxed(p: Problem, closed: Closed, best: map<NodeId, real>) {
    forall u, e {:trigger EdgeRelaxed(p, closed, best, u, e)} :: u in closed && e in p.graph.EdgesFrom(u) ==>
        EdgeRelaxed(p, closed, best, u, e)
  }

  /** The best known price of every unsettled node is in the heap. */
  ghost predicate BestIsOpen(closed: Closed, open: seq<Item>, best: map<NodeId, real>) {
    forall v :: v in best && v !in closed ==> exists item :: item in open && item.node == v && item.g == best[v]
  }

  ghost predicate Rooted(p: Problem, closed: Closed, best: map<NodeId, real>) {
    p.origin in closed || (p.origin in best && best[p.origin] <= 0.0)
  }

  ghost predicate CheapestAmongRoutes(p: Problem, n: NodeId, g: real) {
    forall path :: IsRoute(p.graph, path, p.origin, n) ==> g <= Price(p, path)
  }

  ghost predicate Optimal(p: Problem, closed: Closed) {
    forall n {:trigger CheapestAmongRoutes(p, n, closed[n].g)} :: n in closed && p.estimate(n).Finite? ==>
        CheapestAmongRoutes(p, n, closed[n].g)
  }

  ghost function Universe(p: Problem): set<NodeId> {
    {p.origin} + set k | k in p.graph.edges :: p.graph.edges[k].dst
  }

  lemma EdgeTargetsInUniverse(p: Problem, n: NodeId, e: Edge)
    requires e in p.graph.EdgesFrom(n)
    ensures e.dst in Universe(p)
  {
    p.graph.EdgesFromMembers(n, e);
  }

  // ---------------------------------------------------------------- routes under a consistent estimate

  /** A finite estimate at the end of a route bounds the estimate at each of its nodes. */
  lemma {:induction false} EstimateAlongRoute(p: Problem, path: Path, n: NodeId, k: nat)
    requires ConsistentEstimate(p) && IsRoute(p.graph, path, p.origin, n) && k < |path| && p.estimate(n).Finite?
    ensures p.estimate(path[k].node).Finite?
    ensures p.estimate(path[k].node).v + Price(p, path[..k + 1]) <= Price(p, path) + p.estimate(n).v
  {
    var last := |path| - 1;
    if k == last {
      assert path[..k + 1] == path;
    } else {
      var shorter := path[..last];
      RoutePrefix(p.graph, path, p.origin, n, last - 1);
      var e := p.graph.edges[path[last].via.value];
      assert Follows(p.graph, path[last - 1].node, path[last]);
      assert ConsistentStep(p, path[last - 1].node, e);
      EstimateAlongRoute(p, shorter, path[last - 1].node, k);
      assert shorter[..k + 1] == path[..k + 1];
    }
  }

  /** The first node of a route that is not settled, when the last one is not. */
  lemma {:induction false} Frontier(p: Problem, closed: Closed, path: Path, n: NodeId) returns (k: nat)
    requires IsRoute(p.graph, path, p.origin, n) && n !in closed
    ensures k < |path| && path[k].node !in closed
    ensures forall i :: 0 <= i < k ==> path[i].node in closed
  {
    k := 0;
    while path[k].node in closed
      invariant k < |path|
      invariant forall i :: 0 <= i < k ==> path[i].node in closed
      decreases |path| - k
    {
      assert k != |path| - 1;
      k := k + 1;
    }
  }

  /** The best known price of a node one edge past a settled, cheapest node. */
  lemma BestPastSettled(p: Problem, closed: Closed, best: map<NodeId, real>, path: Path, n: NodeId, k: nat)
    requires Relaxed(p, closed, best) && IsRoute(p.graph, path, p.origin, n) && 0 < k < |path|
    requires path[k].node !in closed && path[k - 1].node in closed
    requires CheapestAmongRoutes(p, path[k - 1].node, closed[path[k - 1].node].g)
    ensures path[k].node in best && best[path[k].node] <= Price(p, path[..k + 1])
  {
    var u := path[k - 1].node;
    RoutePrefix(p.graph, path, p.origin, n, k - 1);
    assert Follows(p.graph, u, path[k]);
    assert EdgeRelaxed(p, closed, best, u, p.graph.edges[path[k].via.value]);
    assert path[..k + 1] == path[..k] + [path[k]];
    PriceSnoc(p, path[..k], path[k]);
  }

  lemma PriceOfStart(p: Problem, path: Path)
    requires path != [] && path[0].via == None
    ensures Price(p, path[..1]) == 0.0
  {
    assert path[..1][..0] == [];
  }

  /** Some heap item reaches the frontier node of the route no dearer than the route does. */
  lemma FrontierItem(p: Problem, closed: Closed, open: seq<Item>, best: map<NodeId, real>, path: Path, n: NodeId,
                     k: nat)
    returns (item: Item)
    requires Relaxed(p, closed, best) && BestIsOpen(closed, open, best) && Rooted(p, closed, best)
    requires IsRoute(p.graph, path, p.origin, n) && k < |path| && path[k].node !in closed
    requires k > 0 ==> path[k - 1].node in closed
                       && CheapestAmongRoutes(p, path[k - 1].node, closed[path[k - 1].node].g)
    ensures item in open && item.node == path[k].node && item.g <= Price(p, path[..k + 1])
  {
    if k == 0 {
      PriceOfStart(p, path);
    } else {
      BestPastSettled(p, closed, best, path, n, k);
    }
    var v := path[k].node;
    item :| item in open && item.node == v && item.g == best[v];
  }

  /** Compared with one route, the popped item is no dearer. */
  lemma PoppedBeatsRoute(p: Problem, closed: Closed, open: seq<Item>, best: map<NodeId, real>, popped: Item, path: Path)
    requires ConsistentEstimate(p)
    requires Relaxed(p, closed, best) && BestIsOpen(closed, open, best) && Rooted(p, closed, best) && Optimal(p, closed)
    requires popped.node !in closed && p.estimate(popped.node).Finite?
    requires popped.f == Finite(popped.g).Plus(p.estimate(popped.node))
    requires forall item :: item in open ==>
        popped.f.Leq(item.f) && item.f == Finite(item.g).Plus(p.estimate(item.node))
    requires IsRoute(p.graph, path, p.origin, popped.node)
    ensures popped.g <= Price(p, path)
  {
    var k := Frontier(p, closed, path, popped.node);
    EstimateAlongRoute(p, path, popped.node, k);
    if k > 0 {
      EstimateAlongRoute(p, path, popped.node, k - 1);
      assert path[k - 1].node in closed;
    }
    var item := FrontierItem(p, closed, open, best, path, popped.node, k);
    assert popped.f.Leq(item.f);
  }

  /** The popped item of least `f` is a cheapest route to its node. */
  lemma PoppedIsCheapest(p: Problem, closed: Closed, open: seq<Item>, best: map<NodeId, real>, popped: Item)
    requires ConsistentEstimate(p) && SoundSearch(p, closed, open)
    requires Relaxed(p, closed, best) && BestIsOpen(closed, open, best) && Rooted(p, closed, best) && Optimal(p, closed)
    requires popped in open && popped.node !in closed && p.estimate(popped.node).Finite?
    requires forall item :: item in open ==> popped.f.Leq(item.f)
    ensures CheapestAmongRoutes(p, popped.node, popped.g)
  {
    assert forall item :: item in open ==> SoundItem(p, closed, item);
    forall path | IsRoute(p.graph, path, p.origin, popped.node)
      ensures popped.g <= Price(p, path)
    {
      PoppedBeatsRoute(p, closed, open, best, popped, path);
    }
  }

  // ---------------------------------------------------------------- steps of the search

  lemma StartIsSound(p: Problem, start: Item)
    requires start == Item(p.estimate(p.origin), 0.0, p.origin, None, None)
    ensures SoundItem(p, map[], start)
  {
    var path := [PathStep(p.origin, None)];
    assert PathTo(start) == path;
    assert IsRoute(p.graph, path, p.origin, p.origin);
    PriceOfStart(p, path);
    assert path[..1] == path;
  }

  /** Closing a node keeps every stored item sound and its own path simple. */
  lemma CloseNode(p: Problem, closed: Closed, open: seq<Item>, rest: seq<Item>, popped: Item)
    requires SoundSearch(p, closed, open) && popped in open && popped.node !in closed
    requires forall item :: item in rest ==> item in open
    ensures SoundSearch(p, closed[popped.node := popped], rest)
  {
    var closed' := closed[popped.node := popped];
    forall item | SoundItem(p, closed, item)
      ensures SoundItem(p, closed', item)
    {
    }
    forall n | n in closed'
      ensures SettledItem(p, closed', n)
    {
      if n == popped.node {
        PoppedPathIsSimple(p, closed, popped);
      } else {
        assert SettledItem(p, closed, n);
      }
    }
  }

  lemma PoppedPathIsSimple(p: Problem, closed: Closed, popped: Item)
    requires forall n {:trigger SettledItem(p, closed, n)} :: n in closed ==> SettledItem(p, closed, n)
    requires SoundItem(p, closed, popped) && popped.node !in closed
    ensures Simple(PathTo(popped))
    ensures NodesOn(PathTo(popped)) <= closed.Keys + {popped.node}
  {
    var path := PathTo(popped);
    if popped.parent.Some? {
      var before := PathTo(popped.parent.value);
      assert path == before + [PathStep(popped.node, popped.via)];
      assert SettledItem(p, closed, popped.parent.value.node);
      forall i | 0 <= i < |before|
        ensures path[i].node in closed
      {
        assert path[i].node in NodesOn(before);
      }
    }
  }

  /** Extending a settled route by an edge gives a sound item. */
  lemma ChildIsSound(p: Problem, closed: Closed, current: Item, e: Edge, child: Item)
    requires p.graph.Keyed() && current.node in closed && closed[current.node] == current
    requires SoundItem(p, closed, current) && e in p.graph.EdgesFrom(current.node)
    requires child == Item(Finite(current.g + p.price(e)).Plus(p.estimate(e.dst)), current.g + p.price(e),
                           e.dst, Some(e.id), Some(current))
    ensures SoundItem(p, closed, child)
  {
    var before := PathTo(current);
    var step := PathStep(e.dst, Some(e.id));
    assert PathTo(child) == before + [step];
    p.graph.EdgesFromMembers(current.node, e);
    PriceSnoc(p, before, step);
    var path := before + [step];
    forall i | 1 <= i < |path|
      ensures Follows(p.graph, path[i - 1].node, path[i])
    {
      if i < |before| {
        assert Follows(p.graph, before[i - 1].node, before[i]);
      }
    }
  }

  lemma {:induction false} RouteStaysClosed(p: Problem, closed: Closed, path: Path, n: NodeId)
    requires p.origin in closed && IsRoute(p.graph, path, p.origin, n)
    requires forall u, e :: u in closed && e in p.graph.EdgesFrom(u) ==> e.dst in closed
    ensures n in closed
  {
    var last := |path| - 1;
    if last > 0 {
      RoutePrefix(p.graph, path, p.origin, n, last - 1);
      RouteStaysClosed(p, closed, path[..last], path[last - 1].node);
      assert Follows(p.graph, path[last - 1].node, path[last]);
    }
  }

  /** With the heap empty the closed set is closed under edges, so everything reachable is in it. */
  lemma ExhaustedCoversReachable(p: Problem, closed: Closed, best: map<NodeId, real>, n: NodeId)
    requires Relaxed(p, closed, best) && BestIsOpen(closed, [], best) && Rooted(p, closed, best)
    ensures Reachable(p.graph, p.origin, n) ==> n in closed
  {
    assert forall v :: v in best ==> v in closed;
    forall u, e | u in closed && e in p.graph.EdgesFrom(u)
      ensures e.dst in closed
    {
      assert EdgeRelaxed(p, closed, best, u, e);
    }
    if Reachable(p.graph, p.origin, n) {
      var path :| IsRoute(p.graph, path, p.origin, n);
      RouteStaysClosed(p, closed, path, n);
    }
  }

  /** heappop: some item of least `f`. */
  method IndexOfLeast(open: seq<Item>) returns (i: nat)
    requires open != []
    ensures i < |open| && forall item :: item in open ==> open[i].f.Leq(item.f)
  {
    i := 0;
    for k := 1 to |open|
      invariant i < k
      invariant forall j :: 0 <= j < k ==> open[i].f.Leq(open[j].f)
    {
      if open[k].f.Less(open[i].f) {
        i := k;
      }
    }
  }

  function PathUpTo(item: Option<Item>): Path {
    if item.Some? then PathTo(item.value) else []
  }

  lemma PathUpToStep(item: Item, path: Path)
    ensures PathUpTo(Some(item)) + path == PathUpTo(item.parent) + ([PathStep(item.node, item.via)] + path)
  {
  }

  method Reconstruct(current: Item) returns (path: Path)
    ensures path == PathTo(current)
  {
    path := [];
    var item := Some(current);
    while item.Some?
      invariant PathTo(current) == PathUpTo(item) + path
      decreases item
    {
      PathUpToStep(item.value, path);
      path := [PathStep(item.value.node, item.value.via)] + path;
      item := item.value.parent;
    }
  }

  // ---------------------------------------------------------------- the search as a step relation

  /** What the loop holds between two pops. */
  datatype Frame = Frame(closed: Closed, open: seq<Item>, best: map<NodeId, real>)

  function StartItem(p: Problem): Item {
    Item(p.estimate(p.origin), 0.0, p.origin, None, None)
  }

  function StartFrame(p: Problem): Frame {
    Frame(map[], [StartItem(p)], map[p.origin := 0.0])
  }

  /** heappop: takes one item of least `f`; which one, if several tie, is left open. */
  ghost predicate Pops(open: seq<Item>, item: Item, rest: seq<Item>) {
    exists i :: 0 <= i < |open| && open[i] == item && rest == open[..i] + open[i + 1..]
                && forall j :: 0 <= j < |open| ==> item.f.Leq(open[j].f)
  }

  function Child(p: Problem, current: Item, e: Edge): Item {
    var g := current.g + p.price(e);
    Item(Finite(g).Plus(p.estimate(e.dst)), g, e.dst, Some(e.id), Some(current))
  }

  /** Pushes the targets of the edges that are not closed and are reached more cheaply than before, edge by edge. */
  function Pushed(p: Problem, closed: set<NodeId>, current: Item, edges: seq<Edge>, open: seq<Item>,
                  best: map<NodeId, real>): (seq<Item>, map<NodeId, real>)
  {
    if edges == [] then (open, best)
    else
      var e, child := edges[|edges| - 1], Child(p, current, edges[|edges| - 1]);
      var (open', best') := Pushed(p, closed, current, edges[..|edges| - 1], open, best);
      if e.dst in closed || (e.dst in best' && child.g >= best'[e.dst]) then (open', best')
      else (open' + [child], best'[e.dst := child.g])
  }

  /** The frame after closing the node of `item` and relaxing its edges. */
  function Expanded(p: Problem, closed: Closed, item: Item, rest: seq<Item>, best: map<NodeId, real>): Frame {
    var closed' := closed[item.node := item];
    var (open', best') := Pushed(p, closed'.Keys, item, p.graph.EdgesFrom(item.node), rest, best);
    Frame(closed', open', best')
  }

  /** One round of the loop: an item of a closed node is dropped, any other but the goal's is expanded. */
  ghost predicate Steps(p: Problem, a: Frame, b: Frame) {
    exists item, rest :: Pops(a.open, item, rest)
      && if item.node in a.closed then b == a.(open := rest)
         else item.node != p.destination && b == Expanded(p, a.closed, item, rest, a.best)
  }

  /** The loop ends with nothing on an empty heap, or with the route of the goal's item. */
  ghost predicate Ends(p: Problem, a: Frame, path: Path, cost: Cost) {
    || (a.open == [] && path == [] && cost == Infinite)
    || exists item, rest :: Pops(a.open, item, rest) && item.node == p.destination && item.node !in a.closed
                            && path == PathTo(item) && cost == Finite(item.g)
  }

  ghost predicate StepsAt(p: Problem, frames: seq<Frame>, i: nat)
    requires 1 <= i < |frames|
  {
    Steps(p, frames[i - 1], frames[i])
  }

  ghost predicate Underway(p: Problem, frames: seq<Frame>) {
    && frames != [] && frames[0] == StartFrame(p)
    && forall i {:trigger StepsAt(p, frames, i)} :: 1 <= i < |frames| ==> StepsAt(p, frames, i)
  }

  ghost predicate RunEnds(p: Problem, frames: seq<Frame>, path: Path, cost: Cost) {
    Underway(p, frames) && Ends(p, frames[|frames| - 1], path, cost)
  }

  /** Some run of the search returns this. */
  ghost predicate CanReturn(p: Problem, path: Path, cost: Cost) {
    exists frames :: RunEnds(p, frames, path, cost)
  }

  lemma StepOn(p: Problem, frames: seq<Frame>, next: Frame)
    requires Underway(p, frames) && Steps(p, frames[|frames| - 1], next)
    ensures Underway(p, frames + [next])
  {
    var longer := frames + [next];
    forall i | 1 <= i < |longer|
      ensures StepsAt(p, longer, i)
    {
      assert i < |frames| ==> StepsAt(p, frames, i);
    }
  }

  // ---------------------------------------------------------------- the two loops

  ghost predicate OpenInvariant(p: Problem, closed: Closed, open: seq<Item>, best: map<NodeId, real>) {
    && SoundSearch(p, closed, open)
    && BestIsOpen(closed, open, best)
    && Rooted(p, closed, best)
    && forall item :: item in open ==> item.node in Universe(p)
  }

  /** Every closed node is relaxed, the current one only along its first `i` edges. */
  ghost predicate Expanding(p: Problem, closed: Closed, best: map<NodeId, real>, current: NodeId, edges: seq<Edge>,
                            i: nat)
    requires current in closed && i <= |edges|
  {
    && (forall u, e {:trigger EdgeRelaxed(p, closed, best, u, e)} ::
          u in closed && u != current && e in p.graph.EdgesFrom(u) ==> EdgeRelaxed(p, closed, best, u, e))
    && (forall j :: 0 <= j < i ==> EdgeRelaxed(p, closed, best, current, edges[j]))
  }

  lemma PushKeepsBestOpen(closed: Closed, open: seq<Item>, best: map<NodeId, real>, child: Item)
    requires BestIsOpen(closed, open, best)
    ensures BestIsOpen(closed, open + [child], best[child.node := child.g])
  {
    var open' := open + [child];
    var best' := best[child.node := child.g];
    forall v | v in best' && v !in closed
      ensures exists item :: item in open' && item.node == v && item.g == best'[v]
    {
      if v == child.node {
        assert child in open';
      } else {
        var item :| item in open && item.node == v && item.g == best[v];
        assert item in open';
      }
    }
  }

  lemma LowerBestKeepsExpanding(p: Problem, closed: Closed, best: map<NodeId, real>, current: NodeId,
                                edges: seq<Edge>, i: nat, g: real)
    requires current in closed && i < |edges| && Expanding(p, closed, best, current, edges, i)
    requires edges[i].dst !in best || g < best[edges[i].dst]
    requires g == closed[current].g + p.price(edges[i])
    ensures Expanding(p, closed, best[edges[i].dst := g], current, edges, i + 1)
  {
    var best' := best[edges[i].dst := g];
    forall u, e | u in closed && EdgeRelaxed(p, closed, best, u, e)
      ensures EdgeRelaxed(p, closed, best', u, e)
    {
    }
    assert EdgeRelaxed(p, closed, best', current, edges[i]);
  }

  lemma PushChild(p: Problem, closed: Closed, open: seq<Item>, best: map<NodeId, real>, current: Item, e: Edge,
                  child: Item)
    requires p.graph.Keyed() && current.node in closed && closed[current.node] == current
    requires OpenInvariant(p, closed, open, best) && e in p.graph.EdgesFrom(current.node) && e.dst !in closed
    requires e.dst !in best || child.g < best[e.dst]
    requires child == Item(Finite(current.g + p.price(e)).Plus(p.estimate(e.dst)), current.g + p.price(e),
                           e.dst, Some(e.id), Some(current))
    ensures OpenInvariant(p, closed, open + [child], best[e.dst := child.g])
  {
    assert SoundItem(p, closed, child) by {
      assert SettledItem(p, closed, current.node);
      ChildIsSound(p, closed, current, e, child);
    }
    EdgeTargetsInUniverse(p, current.node, e);
    PushSoundItem(p, closed, open, best, child);
  }

  lemma PushSoundItem(p: Problem, closed: Closed, open: seq<Item>, best: map<NodeId, real>, child: Item)
    requires OpenInvariant(p, closed, open, best) && SoundItem(p, closed, child) && child.node in Universe(p)
    requires child.node !in best || child.g < best[child.node]
    ensures OpenInvariant(p, closed, open + [child], best[child.node := child.g])
  {
    PushKeepsBestOpen(closed, open, best, child);
    PushKeepsSound(p, closed, open, child);
  }

  lemma PushKeepsSound(p: Problem, closed: Closed, open: seq<Item>, child: Item)
    requires SoundSearch(p, closed, open) && SoundItem(p, closed, child)
    ensures SoundSearch(p, closed, open + [child])
  {
  }

  lemma PushedNext(p: Problem, closed: set<NodeId>, current: Item, edges: seq<Edge>, i: nat, open: seq<Item>,
                   best: map<NodeId, real>)
    requires i < |edges|
    ensures
      var e, child := edges[i], Child(p, current, edges[i]);
      var (open', best') := Pushed(p, closed, current, edges[..i], open, best);
      Pushed(p, closed, current, edges[..i + 1], open, best) ==
      if e.dst in closed || (e.dst in best' && child.g >= best'[e.dst]) then (open', best')
      else (open' + [child], best'[e.dst := child.g])
  {
    assert edges[..i + 1][..i] == edges[..i];
  }

  /** Relaxes every edge out of the node just closed. */
  method Expand(p: Problem, ghost closed: Closed, closedKeys: set<NodeId>, current: Item,
                open0: seq<Item>, best0: map<NodeId, real>)
    returns (open: seq<Item>, best: map<NodeId, real>)
    requires p.graph.Keyed() && closedKeys == closed.Keys && current.node in closed && closed[current.node] == current
    requires OpenInvariant(p, closed, open0, best0)
    requires Expanding(p, closed, best0, current.node, [], 0)
    ensures OpenInvariant(p, closed, open, best) && Relaxed(p, closed, best)
    ensures (open, best) == Pushed(p, closed.Keys, current, p.graph.EdgesFrom(current.node), open0, best0)
  {
    open, best := open0, best0;
    var edges := p.graph.EdgesFrom(current.node);
    for i := 0 to |edges|
      invariant OpenInvariant(p, closed, open, best)
      invariant Expanding(p, closed, best, current.node, edges, i)
      invariant (open, best) == Pushed(p, closed.Keys, current, edges[..i], open0, best0)
    {
      PushedNext(p, closed.Keys, current, edges, i, open0, best0);
      var edge := edges[i];
      if edge.dst in closedKeys {
        assert EdgeRelaxed(p, closed, best, current.node, edges[i]);
        continue;
      }
      var newG := current.g + p.price(edge);
      if edge.dst !in best || newG < best[edge.dst] {
        var child := Item(Finite(newG).Plus(p.estimate(edge.dst)), newG, edge.dst, Some(edge.id), Some(current));
        PushChild(p, closed, open, best, current, edge, child);
        LowerBestKeepsExpanding(p, closed, best, current.node, edges, i, newG);
        best := best[edge.dst := newG];
        open := open + [child];
      } else {
        assert EdgeRelaxed(p, closed, best, current.node, edges[i]);
      }
    }
    assert edges[..|edges|] == edges;
    ExpandedIsRelaxed(p, closed, best, current.node, edges);
  }

  lemma ExpandedIsRelaxed(p: Problem, closed: Closed, best: map<NodeId, real>, current: NodeId, edges: seq<Edge>)
    requires current in closed && edges == p.graph.EdgesFrom(current)
    requires Expanding(p, closed, best, current, edges, |edges|)
    ensures Relaxed(p, closed, best)
  {
    forall u, e | u in closed && e in p.graph.EdgesFrom(u)
      ensures EdgeRelaxed(p, closed, best, u, e)
    {
      if u == current {
        var j :| 0 <= j < |edges| && edges[j] == e;
      }
    }
  }

  ghost predicate SearchInvariant(p: Problem, closed: Closed, open: seq<Item>, best: map<NodeId, real>) {
    && OpenInvariant(p, closed, open, best)
    && Relaxed(p, closed, best)
    && closed.Keys <= Universe(p)
    && (ConsistentEstimate(p) ==> Optimal(p, closed))
  }

  lemma SearchStarts(p: Problem, start: Item)
    requires start == Item(p.estimate(p.origin), 0.0, p.origin, None, None)
    ensures SearchInvariant(p, map[], [start], map[p.origin := 0.0])
  {
    StartIsSound(p, start);
    assert start in [start];
  }

  lemma DropKeepsBestOpen(closed: Closed, open: seq<Item>, rest: seq<Item>, best: map<NodeId, real>, dropped: Item)
    requires BestIsOpen(closed, open, best) && forall item :: item in open ==> item == dropped || item in rest
    ensures BestIsOpen(closed[dropped.node := dropped], rest, best)
    ensures dropped.node in closed ==> BestIsOpen(closed, rest, best)
  {
    forall v | v in best && v !in closed && v != dropped.node
      ensures exists item :: item in rest && item.node == v && item.g == best[v]
    {
      var item :| item in open && item.node == v && item.g == best[v];
      assert item in rest;
    }
  }

  lemma CloseStep(p: Problem, closed: Closed, open: seq<Item>, rest: seq<Item>, best: map<NodeId, real>, current: Item)
    requires SearchInvariant(p, closed, open, best) && current in open && current.node !in closed
    requires forall item :: item in open ==> current.f.Leq(item.f)
    requires forall item :: item in open <==> item == current || item in rest
    ensures OpenInvariant(p, closed[current.node := current], rest, best)
    ensures Expanding(p, closed[current.node := current], best, current.node, [], 0)
    ensures closed[current.node := current].Keys <= Universe(p)
    ensures ConsistentEstimate(p) ==> Optimal(p, closed[current.node := current])
  {
    var closed' := closed[current.node := current];
    CloseNode(p, closed, open, rest, current);
    DropKeepsBestOpen(closed, open, rest, best, current);
    forall u, e | u in closed && u != current.node && e in p.graph.EdgesFrom(u)
      ensures EdgeRelaxed(p, closed', best, u, e)
    {
      assert EdgeRelaxed(p, closed, best, u, e);
    }
    if ConsistentEstimate(p) {
      if p.estimate(current.node).Finite? {
        PoppedIsCheapest(p, closed, open, best, current);
      }
      forall n | n in closed' && p.estimate(n).Finite?
        ensures CheapestAmongRoutes(p, n, closed'[n].g)
      {
      }
    }
  }

  /** Takes an item of least f off the heap. */
  method PopLeast(open: seq<Item>) returns (current: Item, rest: seq<Item>)
    requires open != []
    ensures |rest| < |open| && current in open && forall item :: item in open ==> current.f.Leq(item.f)
    ensures forall item :: item in open <==> item == current || item in rest
    ensures Pops(open, current, rest)
  {
    var i := IndexOfLeast(open);
    current, rest := open[i], open[..i] + open[i + 1..];
    assert open == open[..i] + [current] + open[i + 1..];
  }

  /** The route to a closed destination is a simple one with its exact price, cheapest under a consistent estimate. */
  lemma ClosedGoalAnswers(p: Problem, closed: Closed, open: seq<Item>, best: map<NodeId, real>, path: Path)
    requires OpenInvariant(p, closed, open, best) && p.destination in closed && path == PathTo(closed[p.destination])
    requires ConsistentEstimate(p) ==> Optimal(p, closed)
    ensures path != [] && Reachable(p.graph, p.origin, p.destination)
    ensures IsRoute(p.graph, path, p.origin, p.destination) && Simple(path)
    ensures closed[p.destination].g == Price(p, path)
    ensures ConsistentEstimate(p) && p.estimate(p.destination).Finite? ==>
              CheapestAmongRoutes(p, p.destination, closed[p.destination].g)
  {
    assert SettledItem(p, closed, p.destination);
  }

  /** The search loop: finds a simple route exactly when the destination is reachable, and a cheapest one when the
      estimate is consistent; whatever the estimate, it returns what a run of the step relation returns. */
  method Search(p: Problem) returns (path: Path, cost: Cost)
    requires p.graph.Keyed()
    ensures path == [] <==> !Reachable(p.graph, p.origin, p.destination)
    ensures path == [] ==> cost == Infinite
    ensures path != [] ==> IsRoute(p.graph, path, p.origin, p.destination) && Simple(path)
    ensures path != [] ==> cost == Finite(Price(p, path))
    ensures path != [] && ConsistentEstimate(p) && p.estimate(p.destination).Finite? ==>
              CheapestAmongRoutes(p, p.destination, cost.v)
    ensures CanReturn(p, path, cost)
  {
    var start := Item(p.estimate(p.origin), 0.0, p.origin, None, None);
    var open, best, closedKeys := [start], map[p.origin := 0.0], {};
    ghost var closed: Closed := map[];
    ghost var frames := [StartFrame(p)];
    SearchStarts(p, start);
    while open != []
      invariant closedKeys == closed.Keys
      invariant SearchInvariant(p, closed, open, best)
      invariant Underway(p, frames) && frames[|frames| - 1] == Frame(closed, open, best)
      invariant p.destination !in closed
      decreases Universe(p) - closedKeys, |open|
    {
      var current, rest := PopLeast(open);
      if current.node in closedKeys {
        DropKeepsBestOpen(closed, open, rest, best, current);
        StepOn(p, frames, Frame(closed, rest, best));
        frames := frames + [Frame(closed, rest, best)];
        open := rest;
        continue;
      }
      CloseStep(p, closed, open, rest, best, current);
      ghost var before := Frame(closed, open, best);
      closed := closed[current.node := current];
      closedKeys := closedKeys + {current.node};
      if current.node == p.destination {
        path := Reconstruct(current);
        ClosedGoalAnswers(p, closed, rest, best, path);
        assert RunEnds(p, frames, path, Finite(current.g));
        return path, Finite(current.g);
      }
      ghost var next := Expanded(p, before.closed, current, rest, best);
      open, best := Expand(p, closed, closedKeys, current, rest, best);
      StepOn(p, frames, next);
      frames := frames + [next];
    }
    ExhaustedCoversReachable(p, closed, best, p.destination);
    assert RunEnds(p, frames, [], Infinite);
    return [], Infinite;
  }
}
