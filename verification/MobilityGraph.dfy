/** The mobility graph service as an object, proved to follow the steps on values. */
module MobilityGraph {
  import opened Basics
  import opened MobilityWindows

  datatype EdgeState = EdgeState(vehicles: nat, speed: real, queued: nat, occupancy: real, flow: real,
                                 windows: seq<Rolling>)

  function AllWindows(entries: seq<Timed<string>>, samples: seq<Timed<Sample>>, now: real): seq<Rolling> {
    seq(|WINDOWS|, i requires 0 <= i < |WINDOWS| => RollingOver(entries, samples, WINDOWS[i], now))
  }

  function StateFrom(sample: Sample, flowing: nat, windows: seq<Rolling>): EdgeState {
    EdgeState(sample.vehicles, sample.speed, sample.queued, sample.occupancy, flowing as real * 3600.0 / 60.0, windows)
  }

  /** What an edge shows: its current sample, the flow over the trimmed entries, and the four windows. */
  function Shown(g: Graph, edge: string, sample: Sample, flowing: nat, now: real): EdgeState {
    StateFrom(sample, flowing, AllWindows(At(g.entries, edge), At(g.samples, edge), now))
  }

  lemma FlowDecides(sample: Sample, left: nat, all: nat, windows: seq<Rolling>)
    ensures StateFrom(sample, left, windows) == StateFrom(sample, all, windows) <==> left == all
  {
  }

  /** The states of edges recorded one after the other. */
  function ShownAlong(g: Graph, edges: seq<string>, now: real): seq<EdgeState>
    decreases |edges|
  {
    if edges == [] then []
    else [ShownRecorded(g, edges[0], now)] + ShownAlong(Record(g, edges[0], now), edges[1..], now)
  }

  function ShownRecorded(g: Graph, edge: string, now: real): EdgeState {
    Shown(Record(g, edge, now), edge, SampleOf(g, edge), |At(TrimEdge(g, edge, now).entries, edge)|, now)
  }

  /** The deque loop of `_trim`. */
  method TrimItems<T>(items: seq<Timed<T>>, cutoff: real) returns (r: seq<Timed<T>>)
    ensures r == Trim(items, cutoff)
  {
    r := items;
    while r != [] && r[0].time < cutoff
      invariant Trim(r, cutoff) == Trim(items, cutoff)
      decreases |r|
    {
      r := r[1..];
    }
  }

  /** `_rolling`. */
  method RollingWindows(entries: seq<Timed<string>>, samples: seq<Timed<Sample>>, now: real) returns (r: seq<Rolling>)
    ensures r == AllWindows(entries, samples, now)
  {
    r := [];
    for k := 0 to |WINDOWS|
      invariant |r| == k && forall i :: 0 <= i < k ==> r[i] == RollingOver(entries, samples, WINDOWS[i], now)
    {
      r := r + [RollingOver(entries, samples, WINDOWS[k], now)];
    }
  }

  lemma RecordsStep(g: Graph, edges: seq<string>, k: nat, now: real)
    requires k < |edges|
    ensures RecordAll(g, edges[k..], now) == RecordAll(Record(g, edges[k], now), edges[k + 1..], now)
    ensures ShownAlong(g, edges[k..], now)
            == [ShownRecorded(g, edges[k], now)] + ShownAlong(Record(g, edges[k], now), edges[k + 1..], now)
  {
    assert edges[k..][1..] == edges[k + 1..];
  }

  lemma Appended<T>(before: seq<T>, x: T, rest: seq<T>)
    ensures before + ([x] + rest) == (before + [x]) + rest
  {
  }

  class MobilityGraphService {
    var capacity: Dict<string, int>
    var vehicles: Dict<string, Vehicle>
    var pedestrians: map<string, Option<string>>
    var actorEdges: map<string, string>
    var entryTimes: map<string, seq<Timed<string>>>
    var samples: map<string, seq<Timed<Sample>>>

    ghost function Model(): Graph
      reads this
    {
      Graph(true, capacity, vehicles, pedestrians, actorEdges, entryTimes, samples)
    }

    constructor ()
      ensures Model() == EmptyGraph(true)
    {
      capacity, vehicles, pedestrians, actorEdges, entryTimes, samples := EmptyDict(), EmptyDict(), map[], map[],
          map[], map[];
    }

    method ActorsOn(edge: string) returns (here: seq<Vehicle>)
      ensures here == VehiclesOn(vehicles, vehicles.keys, edge)
    {
      here := [];
      for k := 0 to |vehicles.keys|
        invariant here == VehiclesOn(vehicles, vehicles.keys[..k], edge)
      {
        assert vehicles.keys[..k + 1][..k] == vehicles.keys[..k];
        var id := vehicles.keys[k];
        if id in vehicles.at && vehicles.at[id].segment == Some(edge) {
          here := here + [vehicles.at[id]];
        }
      }
      assert vehicles.keys[..|vehicles.keys|] == vehicles.keys;
    }

    method MeasureEdge(edge: string) returns (sample: Sample)
      ensures sample == SampleOf(Model(), edge)
    {
      var here := ActorsOn(edge);
      var speed, queued := 0.0, 0;
      for k := 0 to |here|
        invariant speed == SpeedTotal(here[..k]) && queued == Queued(here[..k])
      {
        assert here[..k + 1][..k] == here[..k];
        speed := speed + here[k].speed;
        if here[k].speed <= QUEUE_SPEED {
          queued := queued + 1;
        }
      }
      assert here[..|here|] == here;
      var limit := if edge in capacity.at && capacity.at[edge] >= 1 then capacity.at[edge] else DEFAULT_CAPACITY;
      sample := Sample(|here|, if here == [] then 0.0 else speed / |here| as real, queued,
                       MinReal(1.0, |here| as real / limit as real));
    }

    method TrimHistory(edge: string, now: real)
      modifies this`entryTimes, this`samples
      ensures Model() == TrimEdge(old(Model()), edge, now)
    {
      var entries := TrimItems(At(entryTimes, edge), now - LONGEST);
      var kept := TrimItems(At(samples, edge), now - LONGEST);
      entryTimes := entryTimes[edge := entries];
      samples := samples[edge := kept];
    }

    /** `_edge_state`. */
    method StateOf(edge: string, now: real, record: bool) returns (state: EdgeState)
      modifies this`entryTimes, this`samples
      ensures Model() == if record then Record(old(Model()), edge, now) else TrimEdge(old(Model()), edge, now)
      ensures state == Shown(Model(), edge, SampleOf(old(Model()), edge),
                             |At(TrimEdge(old(Model()), edge, now).entries, edge)|, now)
    {
      var sample := MeasureEdge(edge);
      TrimHistory(edge, now);
      var flowing := |At(entryTimes, edge)|;
      if record {
        samples := samples[edge := At(samples, edge) + [Timed(now, sample)]];
        TrimHistory(edge, now);
      }
      var windows := RollingWindows(At(entryTimes, edge), At(samples, edge), now);
      state := StateFrom(sample, flowing, windows);
    }

    /** `_observe_actor`, once the actor's state is stored; one state per affected edge, in alphabetical order. */
    method ObserveActor(id: string, segment: Option<string>, now: real) returns (states: seq<EdgeState>)
      modifies this`capacity, this`actorEdges, this`entryTimes, this`samples
      ensures Model() == Move(old(Model()), id, segment, now)
      ensures states == ShownAlong(Place(old(Model()), id, segment, now), Affected(segment, Prior(old(Model()), id)),
                                   now)
    {
      var prior := if id in actorEdges then Some(actorEdges[id]) else None;
      if segment.None? {
        actorEdges := actorEdges - {id};
      } else {
        Locate(id, segment.value, prior, now);
      }
      states := RecordEdges(Affected(segment, prior), now);
    }

    /** Records the edges in the given order and returns their states. */
    method RecordEdges(edges: seq<string>, now: real) returns (states: seq<EdgeState>)
      modifies this`entryTimes, this`samples
      ensures Model() == RecordAll(old(Model()), edges, now) && states == ShownAlong(old(Model()), edges, now)
    {
      states := [];
      for k := 0 to |edges|
        invariant capacity == old(capacity) && vehicles == old(vehicles) && pedestrians == old(pedestrians)
        invariant actorEdges == old(actorEdges)
        invariant RecordAll(Model(), edges[k..], now) == RecordAll(old(Model()), edges, now)
        invariant states + ShownAlong(Model(), edges[k..], now) == ShownAlong(old(Model()), edges, now)
      {
        RecordsStep(Model(), edges, k, now);
        var state := StateOf(edges[k], now, true);
        Appended(states, state, ShownAlong(Model(), edges[k + 1..], now));
        states := states + [state];
      }
    }

    method Locate(id: string, edge: string, prior: Option<string>, now: real)
      modifies this`capacity, this`actorEdges, this`entryTimes
      ensures Model() == Enter(old(Model()), id, edge, prior, now)
    {
      if edge !in capacity.at {
        capacity := capacity.Put(edge, DEFAULT_CAPACITY);
      }
      actorEdges := actorEdges[id := edge];
      if prior != Some(edge) {
        entryTimes := entryTimes[edge := At(entryTimes, edge) + [Timed(now, id)]];
      }
    }

    method Observe(id: string, v: Vehicle, now: real) returns (states: seq<EdgeState>)
      modifies this
      ensures Model() == Step(old(Model()), ObserveVehicle(id, v), now)
      ensures
        var g := old(Model()).(vehicles := old(vehicles).Put(id, v));
        states == ShownAlong(Place(g, id, v.segment, now), Affected(v.segment, Prior(g, id)), now)
    {
      vehicles := vehicles.Put(id, v);
      states := ObserveActor(id, v.segment, now);
    }

    method ObserveWalker(id: string, segment: Option<string>, now: real) returns (states: seq<EdgeState>)
      modifies this
      ensures Model() == Step(old(Model()), ObservePedestrian(id, segment), now)
      ensures
        var g := old(Model()).(pedestrians := old(pedestrians)[id := segment]);
        states == ShownAlong(Place(g, id, segment, now), Affected(segment, Prior(g, id)), now)
    {
      pedestrians := pedestrians[id := segment];
      states := ObserveActor(id, segment, now);
    }

    method RegisterEdge(edge: string, vehiclesMax: int, now: real) returns (state: EdgeState)
      modifies this
      ensures Model() == Step(old(Model()), Register(edge, vehiclesMax), now)
      ensures state == ShownRecorded(old(Model()).(capacity := old(capacity).Put(edge, vehiclesMax)), edge, now)
    {
      capacity := capacity.Put(edge, vehiclesMax);
      state := StateOf(edge, now, true);
    }

    method GetEdge(edge: string, now: real) returns (state: Option<EdgeState>)
      modifies this`entryTimes, this`samples
      ensures Model() == Step(old(Model()), Look(edge), now)
      ensures state == if edge in capacity.at
                       then Some(Shown(Model(), edge, SampleOf(old(Model()), edge), |At(Model().entries, edge)|, now))
                       else None
    {
      if edge !in capacity.at {
        return None;
      }
      var found := StateOf(edge, now, false);
      return Some(found);
    }
  }

  /** What a look at an edge shows, from trimmed and from untrimmed histories. */
  ghost predicate LookIsFull(ops: seq<(Op, real)>, edge: string, now: real) {
    var (g, full) := (Trimmed(ops), Untrimmed(ops));
    Shown(TrimEdge(g, edge, now), edge, SampleOf(g, edge), |At(TrimEdge(g, edge, now).entries, edge)|, now)
    == Shown(full, edge, SampleOf(full, edge), |Since(At(full.entries, edge), now - LONGEST)|, now)
  }

  /** When no call is later than the look, whatever their order, the look shows what the untrimmed history shows exactly
      when no outdated entry hides behind a current one. */
  lemma LookShowsFullHistoryIff(ops: seq<(Op, real)>, edge: string, now: real)
    requires UpTo(ops, now)
    ensures LookIsFull(ops, edge, now) <==> NoStragglers(At(Untrimmed(ops).entries, edge), now - LONGEST)
    ensures Forward(ops, now) ==> LookIsFull(ops, edge, now)
  {
    RunsAgree(ops, now);
    FlowCountsWindowIff(ops, edge, now);
    if Forward(ops, now) {
      ForwardFlowIsExact(ops, edge, now);
    }
    ShownAgreesIff(Trimmed(ops), Untrimmed(ops), edge, now);
  }

  lemma ShownAgreesIff(g: Graph, full: Graph, edge: string, now: real)
    requires Agrees(g, full, now)
    ensures
      var (left, all) := (|At(TrimEdge(g, edge, now).entries, edge)|, |Since(At(full.entries, edge), now - LONGEST)|);
      Shown(TrimEdge(g, edge, now), edge, SampleOf(g, edge), left, now)
          == Shown(full, edge, SampleOf(full, edge), all, now)
      <==> left == all
  {
    var g' := TrimEdge(g, edge, now);
    assert SampleOf(g, edge) == SampleOf(full, edge);
    WindowsAgree(g, full, edge, now);
    FlowDecides(SampleOf(g, edge), |At(g'.entries, edge)|, |Since(At(full.entries, edge), now - LONGEST)|,
                AllWindows(At(full.entries, edge), At(full.samples, edge), now));
  }

  lemma WindowsAgree(g: Graph, full: Graph, edge: string, now: real)
    requires Agrees(g, full, now)
    ensures
      var g' := TrimEdge(g, edge, now);
      AllWindows(At(g'.entries, edge), At(g'.samples, edge), now)
          == AllWindows(At(full.entries, edge), At(full.samples, edge), now)
  {
    forall i | 0 <= i < |WINDOWS|
      ensures ExactAt(g, full, edge, now, WINDOWS[i])
    {
      LookIsExact(g, full, edge, now, now, WINDOWS[i]);
    }
  }
}
