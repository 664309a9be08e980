/** Live edge metrics of the mobility graph on values: actors on edges, and trailing windows over trimmed histories. */
module MobilityWindows {
  import opened Basics

  const WINDOWS: seq<real> := [5.0, 15.0, 30.0, 60.0]
  const LONGEST := 60.0
  const QUEUE_SPEED := 2.0
  const DEFAULT_CAPACITY := 20

  datatype Timed<T> = Timed(time: real, value: T)

  datatype Vehicle = Vehicle(segment: Option<string>, speed: real)

  datatype Sample = Sample(vehicles: nat, speed: real, queued: nat, occupancy: real)

  /** `trimming` is true for the code as it stands; false keeps the whole history. */
  datatype Graph = Graph(
    trimming: bool,
    capacity: Dict<string, int>,
    vehicles: Dict<string, Vehicle>,
    pedestrians: map<string, Option<string>>,
    actorEdges: map<string, string>,
    entries: map<string, seq<Timed<string>>>,
    samples: map<string, seq<Timed<Sample>>>)

  function EmptyGraph(trimming: bool): Graph {
    Graph(trimming, EmptyDict(), EmptyDict(), map[], map[], map[], map[])
  }

  function At<T>(m: map<string, seq<Timed<T>>>, edge: string): seq<Timed<T>> {
    if edge in m then m[edge] else []
  }

  // ---------------------------------------------------------------- windows

  /** Drops outdated items from the front. */
  function Trim<T>(items: seq<Timed<T>>, cutoff: real): seq<Timed<T>> {
    if items != [] && items[0].time < cutoff then Trim(items[1..], cutoff) else items
  }

  function Since<T>(items: seq<Timed<T>>, cutoff: real): seq<Timed<T>> {
    if items == [] then []
    else if items[0].time >= cutoff then [items[0]] + Since(items[1..], cutoff)
    else Since(items[1..], cutoff)
  }

  function Total<T>(items: seq<Timed<T>>, of: T -> real): real {
    if items == [] then 0.0 else of(items[0].value) + Total(items[1..], of)
  }

  function Mean<T>(items: seq<Timed<T>>, of: T -> real): real {
    if items == [] then 0.0 else Total(items, of) / |items| as real
  }

  datatype Rolling = Rolling(window: real, samples: nat, vehicles: real, speed: real, queued: real, occupancy: real,
                             flow: real)

  function RollingOver(entries: seq<Timed<string>>, samples: seq<Timed<Sample>>, window: real, now: real): Rolling
    requires window > 0.0
  {
    var subset := Since(samples, now - window);
    Rolling(window, |subset|, Mean(subset, (s: Sample) => s.vehicles as real), Mean(subset, (s: Sample) => s.speed),
            Mean(subset, (s: Sample) => s.queued as real), Mean(subset, (s: Sample) => s.occupancy),
            |Since(entries, now - window)| as real * 3600.0 / window)
  }

  // ---------------------------------------------------------------- actors

  function VehiclesOn(vehicles: Dict<string, Vehicle>, ids: seq<string>, edge: string): seq<Vehicle> {
    if ids == [] then []
    else
      var rest := VehiclesOn(vehicles, ids[..|ids| - 1], edge);
      var id := ids[|ids| - 1];
      if id in vehicles.at && vehicles.at[id].segment == Some(edge) then rest + [vehicles.at[id]] else rest
  }

  function SpeedTotal(vehicles: seq<Vehicle>): real {
    if vehicles == [] then 0.0 else SpeedTotal(vehicles[..|vehicles| - 1]) + vehicles[|vehicles| - 1].speed
  }

  function Queued(vehicles: seq<Vehicle>): nat {
    if vehicles == [] then 0
    else Queued(vehicles[..|vehicles| - 1]) + (if vehicles[|vehicles| - 1].speed <= QUEUE_SPEED then 1 else 0)
  }

  function Capacity(g: Graph, edge: string): (c: int)
    ensures c >= 1
  {
    if edge in g.capacity.at && g.capacity.at[edge] >= 1 then g.capacity.at[edge] else DEFAULT_CAPACITY
  }

  function SampleOf(g: Graph, edge: string): Sample {
    var here := VehiclesOn(g.vehicles, g.vehicles.keys, edge);
    Sample(|here|, if here == [] then 0.0 else SpeedTotal(here) / |here| as real, Queued(here),
           MinReal(1.0, |here| as real / Capacity(g, edge) as real))
  }

  // ---------------------------------------------------------------- steps

  function TrimEdge(g: Graph, edge: string, now: real): Graph {
    if g.trimming then
      g.(entries := g.entries[edge := Trim(At(g.entries, edge), now - LONGEST)],
         samples := g.samples[edge := Trim(At(g.samples, edge), now - LONGEST)])
    else g
  }

  /** Trims, appends a sample, trims again. */
  function Record(g: Graph, edge: string, now: real): Graph {
    TrimEdge(AddSample(TrimEdge(g, edge, now), edge, Timed(now, SampleOf(g, edge))), edge, now)
  }

  function AddSample(g: Graph, edge: string, sample: Timed<Sample>): Graph {
    g.(samples := g.samples[edge := At(g.samples, edge) + [sample]])
  }

  /** Places the actor on the edge; an actor new to the edge counts as an entry. */
  function Enter(g: Graph, id: string, edge: string, prior: Option<string>, now: real): Graph {
    g.(capacity := if edge in g.capacity.at then g.capacity else g.capacity.Put(edge, DEFAULT_CAPACITY),
       actorEdges := g.actorEdges[id := edge],
       entries := if prior == Some(edge) then g.entries else g.entries[edge := At(g.entries, edge) + [Timed(now, id)]])
  }

  /** Code point order of strings. */
  predicate Before(a: string, b: string) {
    a == "" || (b != "" && (a[0] < b[0] || (a[0] == b[0] && Before(a[1..], b[1..]))))
  }

  lemma {:induction false} BeforeIsTotal(a: string, b: string)
    ensures Before(a, b) || Before(b, a)
    ensures Before(a, b) && Before(b, a) ==> a == b
  {
    if a != "" && b != "" && a[0] == b[0] {
      BeforeIsTotal(a[1..], b[1..]);
    }
  }

  /** The edges an observation affects, in order. */
  function Affected(edge: Option<string>, prior: Option<string>): seq<string> {
    var left := if prior.Some? && prior.value != "" && prior != edge then [prior.value] else [];
    match edge
    case None => left
    case Some(e) => if left == [] || Before(e, left[0]) then [e] + left else left + [e]
  }

  /** Each affected edge occurs once, and in order. */
  lemma AffectedIsSorted(edge: Option<string>, prior: Option<string>)
    ensures
      var r := Affected(edge, prior);
      && (forall e :: e in r <==> edge == Some(e) || (prior == Some(e) && e != ""))
      && forall i, j :: 0 <= i < j < |r| ==> r[i] != r[j] && Before(r[i], r[j])
  {
    if edge.Some? && prior.Some? {
      BeforeIsTotal(edge.value, prior.value);
    }
  }

  function RecordAll(g: Graph, edges: seq<string>, now: real): Graph
    decreases |edges|
  {
    if edges == [] then g else RecordAll(Record(g, edges[0], now), edges[1..], now)
  }

  function Prior(g: Graph, id: string): Option<string> {
    if id in g.actorEdges then Some(g.actorEdges[id]) else None
  }

  /** Takes the actor off its edge or places it on the new one. */
  function Place(g: Graph, id: string, segment: Option<string>, now: real): Graph {
    match segment
    case None => g.(actorEdges := g.actorEdges - {id})
    case Some(edge) => Enter(g, id, edge, Prior(g, id), now)
  }

  /** `_observe_actor` once the state is stored. */
  function Move(g: Graph, id: string, segment: Option<string>, now: real): Graph {
    RecordAll(Place(g, id, segment, now), Affected(segment, Prior(g, id)), now)
  }

  datatype Op =
    | ObserveVehicle(id: string, v: Vehicle)
    | ObservePedestrian(id: string, segment: Option<string>)
    | Register(edge: string, capacity: int)
    | Refresh(edge: string)
    | Look(edge: string)

  function Step(g: Graph, op: Op, now: real): Graph {
    match op
    case ObserveVehicle(id, v) => Move(g.(vehicles := g.vehicles.Put(id, v)), id, v.segment, now)
    case ObservePedestrian(id, segment) => Move(g.(pedestrians := g.pedestrians[id := segment]), id, segment, now)
    case Register(edge, capacity) => Record(g.(capacity := g.capacity.Put(edge, capacity)), edge, now)
    case Refresh(edge) => if edge in g.capacity.at then Record(g, edge, now) else g
    case Look(edge) => if edge in g.capacity.at then TrimEdge(g, edge, now) else g
  }

  function Run(g: Graph, ops: seq<(Op, real)>): Graph {
    if ops == [] then g else Step(Run(g, ops[..|ops| - 1]), ops[|ops| - 1].0, ops[|ops| - 1].1)
  }

  // ---------------------------------------------------------------- trimming loses only what is outdated

  /** `kept` is the history without some items at its front, each more than the longest window before `latest`. */
  ghost predicate TailOf<T>(kept: seq<Timed<T>>, all: seq<Timed<T>>, latest: real) {
    && |kept| <= |all| && kept == all[|all| - |kept|..]
    && forall i :: 0 <= i < |all| - |kept| ==> all[i].time < latest - LONGEST
  }

  lemma {:induction false} TrimIs<T>(items: seq<Timed<T>>, cutoff: real)
    ensures |Trim(items, cutoff)| <= |items| && Trim(items, cutoff) == items[|items| - |Trim(items, cutoff)|..]
    ensures forall i :: 0 <= i < |items| - |Trim(items, cutoff)| ==> items[i].time < cutoff
    ensures Trim(items, cutoff) != [] ==> Trim(items, cutoff)[0].time >= cutoff
  {
    if items != [] && items[0].time < cutoff {
      TrimIs(items[1..], cutoff);
      assert items == [items[0]] + items[1..];
    }
  }

  lemma TailLater<T>(kept: seq<Timed<T>>, all: seq<Timed<T>>, latest: real, later: real)
    requires TailOf(kept, all, latest) && latest <= later
    ensures TailOf(kept, all, later)
  {
  }

  lemma TailTrimmed<T>(kept: seq<Timed<T>>, all: seq<Timed<T>>, now: real, latest: real)
    requires TailOf(kept, all, latest) && now <= latest
    ensures TailOf(Trim(kept, now - LONGEST), all, latest)
  {
    TrimIs(kept, now - LONGEST);
    var trimmed := Trim(kept, now - LONGEST);
    var k := |all| - |kept|;
    forall i | 0 <= i < |all| - |trimmed|
      ensures all[i].time < latest - LONGEST
    {
      if i >= k {
        assert kept[i - k] == all[i];
      }
    }
  }

  lemma TailExtended<T>(kept: seq<Timed<T>>, all: seq<Timed<T>>, latest: real, x: Timed<T>)
    requires TailOf(kept, all, latest)
    ensures TailOf(kept + [x], all + [x], latest)
  {
    assert (all + [x])[|all| - |kept|..] == kept + [x];
  }

  lemma {:induction false} SinceDropsOutdated<T>(all: seq<Timed<T>>, k: nat, cutoff: real)
    requires k <= |all| && forall i :: 0 <= i < k ==> all[i].time < cutoff
    ensures Since(all, cutoff) == Since(all[k..], cutoff)
  {
    if k > 0 {
      SinceDropsOutdated(all[1..], k - 1, cutoff);
      assert all[1..][k - 1..] == all[k..];
    } else {
      assert all[0..] == all;
    }
  }

  /** Nothing in the list is outdated exactly when its window is as long as the list. */
  lemma {:induction false} SinceIsWhole<T>(items: seq<Timed<T>>, cutoff: real)
    ensures |Since(items, cutoff)| <= |items|
    ensures |Since(items, cutoff)| == |items| <==> forall i :: 0 <= i < |items| ==> items[i].time >= cutoff
  {
    if items != [] {
      SinceIsWhole(items[1..], cutoff);
      if |Since(items, cutoff)| == |items| {
        forall i | 0 <= i < |items|
          ensures items[i].time >= cutoff
        {
          if i > 0 {
            assert items[1..][i - 1] == items[i];
          }
        }
      }
    }
  }

  /** A window that does not reach back beyond what the latest call kept shows what the full history does. */
  lemma WindowIsExact<T>(kept: seq<Timed<T>>, all: seq<Timed<T>>, now: real, latest: real, window: real)
    requires TailOf(kept, all, latest) && latest <= now + (LONGEST - window)
    ensures Since(kept, now - window) == Since(all, now - window)
  {
    SinceDropsOutdated(all, |all| - |kept|, now - window);
  }

  /** No outdated item stands behind a current one. */
  ghost predicate NoStragglers<T>(items: seq<Timed<T>>, cutoff: real) {
    forall i, j :: 0 <= i < j < |items| && items[i].time >= cutoff ==> items[j].time >= cutoff
  }

  /** Once only outdated items precede the first current one, all from there on are current exactly without
      stragglers. */
  lemma CurrentFromIff<T>(all: seq<Timed<T>>, k: nat, cutoff: real)
    requires k <= |all| && (forall i :: 0 <= i < k ==> all[i].time < cutoff) && (k < |all| ==> all[k].time >= cutoff)
    ensures (forall i :: 0 <= i < |all[k..]| ==> all[k..][i].time >= cutoff) <==> NoStragglers(all, cutoff)
  {
    var rest := all[k..];
    assert forall i :: 0 <= i < |rest| ==> rest[i] == all[k + i];
    if forall i :: 0 <= i < |rest| ==> rest[i].time >= cutoff {
      forall i, j | 0 <= i < j < |all| && all[i].time >= cutoff
        ensures all[j].time >= cutoff
      {
        assert all[j] == rest[j - k];
      }
    }
    if NoStragglers(all, cutoff) {
      forall i | 0 <= i < |rest|
        ensures rest[i].time >= cutoff
      {
        assert i > 0 ==> all[k + i].time >= cutoff;
      }
    }
  }

  /** Trimming leaves as many items as the longest window has exactly when no outdated item hides behind a current
      one. */
  lemma TrimCountsWindowIff<T>(kept: seq<Timed<T>>, all: seq<Timed<T>>, now: real)
    requires TailOf(kept, all, now)
    ensures |Trim(kept, now - LONGEST)| == |Since(all, now - LONGEST)| <==> NoStragglers(all, now - LONGEST)
  {
    var cutoff := now - LONGEST;
    var k := |all| - |Trim(kept, cutoff)|;
    TailTrimmed(kept, all, now, now);
    TrimIs(kept, cutoff);
    SinceDropsOutdated(all, k, cutoff);
    SinceIsWhole(all[k..], cutoff);
    CurrentFromIff(all, k, cutoff);
  }

  lemma {:induction false} SinceGrows<T>(items: seq<Timed<T>>, cutoff: real, earlier: real)
    requires earlier <= cutoff
    ensures |Since(items, cutoff)| <= |Since(items, earlier)|
  {
    if items != [] {
      SinceGrows(items[1..], cutoff, earlier);
    }
  }

  // ---------------------------------------------------------------- two runs

  /** The trimming graph and the one that keeps everything agree but for history outdated at the latest call. */
  ghost predicate Agrees(g: Graph, full: Graph, latest: real) {
    && g.trimming && !full.trimming
    && g.capacity == full.capacity && g.vehicles == full.vehicles && g.pedestrians == full.pedestrians
    && g.actorEdges == full.actorEdges
    && (forall edge {:trigger At(g.entries, edge)} {:trigger At(full.entries, edge)} ::
          TailOf(At(g.entries, edge), At(full.entries, edge), latest))
    && (forall edge {:trigger At(g.samples, edge)} {:trigger At(full.samples, edge)} ::
          TailOf(At(g.samples, edge), At(full.samples, edge), latest))
  }

  lemma AgreesLater(g: Graph, full: Graph, latest: real, later: real)
    requires Agrees(g, full, latest) && latest <= later
    ensures Agrees(g, full, later)
  {
    forall edge
      ensures TailOf(At(g.entries, edge), At(full.entries, edge), later)
      ensures TailOf(At(g.samples, edge), At(full.samples, edge), later)
    {
      TailLater(At(g.entries, edge), At(full.entries, edge), latest, later);
      TailLater(At(g.samples, edge), At(full.samples, edge), latest, later);
    }
  }

  lemma TrimKeepsTail<T>(kept: map<string, seq<Timed<T>>>, all: map<string, seq<Timed<T>>>, edge: string, e: string,
                         now: real, latest: real)
    requires TailOf(At(kept, edge), At(all, edge), latest) && TailOf(At(kept, e), At(all, e), latest) && now <= latest
    ensures TailOf(At(kept[edge := Trim(At(kept, edge), now - LONGEST)], e), At(all, e), latest)
  {
    TailTrimmed(At(kept, edge), At(all, edge), now, latest);
  }

  lemma TrimAgrees(g: Graph, full: Graph, edge: string, now: real, latest: real)
    requires Agrees(g, full, latest) && now <= latest
    ensures Agrees(TrimEdge(g, edge, now), full, latest) && TrimEdge(full, edge, now) == full
  {
    var g' := TrimEdge(g, edge, now);
    assert TailOf(At(g.entries, edge), At(full.entries, edge), latest);
    assert TailOf(At(g.samples, edge), At(full.samples, edge), latest);
    forall e
      ensures TailOf(At(g'.entries, e), At(full.entries, e), latest)
      ensures TailOf(At(g'.samples, e), At(full.samples, e), latest)
    {
      assert TailOf(At(g.entries, e), At(full.entries, e), latest)
          && TailOf(At(g.samples, e), At(full.samples, e), latest);
      TrimKeepsTail(g.entries, full.entries, edge, e, now, latest);
      TrimKeepsTail(g.samples, full.samples, edge, e, now, latest);
    }
  }

  lemma SampleAgrees(g: Graph, full: Graph, edge: string, latest: real, sample: Timed<Sample>)
    requires Agrees(g, full, latest)
    ensures Agrees(AddSample(g, edge, sample), AddSample(full, edge, sample), latest)
  {
    TailExtended(At(g.samples, edge), At(full.samples, edge), latest, sample);
    var g', full' := AddSample(g, edge, sample), AddSample(full, edge, sample);
    forall e
      ensures TailOf(At(g'.samples, e), At(full'.samples, e), latest)
    {
      assert TailOf(At(g.samples, e), At(full.samples, e), latest);
    }
  }

  lemma RecordAgrees(g: Graph, full: Graph, edge: string, now: real, latest: real)
    requires Agrees(g, full, latest) && now <= latest
    ensures Agrees(Record(g, edge, now), Record(full, edge, now), latest)
  {
    assert SampleOf(g, edge) == SampleOf(full, edge);
    RecordSampleAgrees(g, full, edge, now, latest, Timed(now, SampleOf(g, edge)));
  }

  lemma RecordSampleAgrees(g: Graph, full: Graph, edge: string, now: real, latest: real, sample: Timed<Sample>)
    requires Agrees(g, full, latest) && now <= latest
    ensures Agrees(TrimEdge(AddSample(TrimEdge(g, edge, now), edge, sample), edge, now),
                   TrimEdge(AddSample(TrimEdge(full, edge, now), edge, sample), edge, now), latest)
  {
    TrimAgrees(g, full, edge, now, latest);
    SampleAgrees(TrimEdge(g, edge, now), full, edge, latest, sample);
    TrimAgrees(AddSample(TrimEdge(g, edge, now), edge, sample), AddSample(full, edge, sample), edge, now, latest);
  }

  lemma EnterAgrees(g: Graph, full: Graph, id: string, edge: string, prior: Option<string>, now: real, latest: real)
    requires Agrees(g, full, latest)
    ensures Agrees(Enter(g, id, edge, prior, now), Enter(full, id, edge, prior, now), latest)
  {
    TailExtended(At(g.entries, edge), At(full.entries, edge), latest, Timed(now, id));
    var g', full' := Enter(g, id, edge, prior, now), Enter(full, id, edge, prior, now);
    forall e
      ensures TailOf(At(g'.entries, e), At(full'.entries, e), latest)
    {
      assert TailOf(At(g.entries, e), At(full.entries, e), latest);
    }
  }

  lemma {:induction false} RecordAllAgrees(g: Graph, full: Graph, edges: seq<string>, now: real, latest: real)
    requires Agrees(g, full, latest) && now <= latest
    ensures Agrees(RecordAll(g, edges, now), RecordAll(full, edges, now), latest)
    decreases |edges|
  {
    if edges != [] {
      RecordAgrees(g, full, edges[0], now, latest);
      RecordAllAgrees(Record(g, edges[0], now), Record(full, edges[0], now), edges[1..], now, latest);
    }
  }

  lemma MoveAgrees(g: Graph, full: Graph, id: string, segment: Option<string>, now: real, latest: real)
    requires Agrees(g, full, latest) && now <= latest
    ensures Agrees(Move(g, id, segment, now), Move(full, id, segment, now), latest)
  {
    if segment.Some? {
      EnterAgrees(g, full, id, segment.value, Prior(g, id), now, latest);
    }
    RecordAllAgrees(Place(g, id, segment, now), Place(full, id, segment, now), Affected(segment, Prior(g, id)), now,
                    latest);
  }

  lemma StepAgrees(g: Graph, full: Graph, op: Op, now: real, latest: real)
    requires Agrees(g, full, latest) && now <= latest
    ensures Agrees(Step(g, op, now), Step(full, op, now), latest)
  {
    match op
    case ObserveVehicle(id, v) =>
      var vehicles := g.vehicles.Put(id, v);
      MoveAgrees(g.(vehicles := vehicles), full.(vehicles := vehicles), id, v.segment, now, latest);
    case ObservePedestrian(id, segment) =>
      var pedestrians := g.pedestrians[id := segment];
      MoveAgrees(g.(pedestrians := pedestrians), full.(pedestrians := pedestrians), id, segment, now, latest);
    case Register(edge, capacity) =>
      var capacities := g.capacity.Put(edge, capacity);
      RecordAgrees(g.(capacity := capacities), full.(capacity := capacities), edge, now, latest);
    case Refresh(edge) => if edge in g.capacity.at { RecordAgrees(g, full, edge, now, latest); }
    case Look(edge) => if edge in g.capacity.at { TrimAgrees(g, full, edge, now, latest); }
  }

  /** No call of the run is later than `latest`; their order is free. */
  ghost predicate UpTo(ops: seq<(Op, real)>, latest: real) {
    forall i :: 0 <= i < |ops| ==> ops[i].1 <= latest
  }

  function Trimmed(ops: seq<(Op, real)>): Graph {
    Run(EmptyGraph(true), ops)
  }

  function Untrimmed(ops: seq<(Op, real)>): Graph {
    Run(EmptyGraph(false), ops)
  }

  /** In whatever order the calls come, the run that trims and the one that keeps everything agree but for history more
      than the longest window before the latest call. */
  lemma {:induction false} RunsAgree(ops: seq<(Op, real)>, latest: real)
    requires UpTo(ops, latest)
    ensures Agrees(Trimmed(ops), Untrimmed(ops), latest)
  {
    if ops != [] {
      var n := |ops| - 1;
      RunsAgree(ops[..n], latest);
      StepAgrees(Trimmed(ops[..n]), Untrimmed(ops[..n]), ops[n].0, ops[n].1, latest);
    }
  }

  // ---------------------------------------------------------------- when the windows are exact

  /** What a look at `now` computes over a window equals what the untrimmed history gives. */
  ghost predicate ExactAt(g: Graph, full: Graph, edge: string, now: real, window: real)
    requires window > 0.0
  {
    var g' := TrimEdge(g, edge, now);
    RollingOver(At(g'.entries, edge), At(g'.samples, edge), window, now)
    == RollingOver(At(full.entries, edge), At(full.samples, edge), window, now)
  }

  lemma LookIsExact(g: Graph, full: Graph, edge: string, now: real, latest: real, window: real)
    requires Agrees(g, full, latest) && 0.0 < window <= LONGEST && latest <= now + (LONGEST - window)
    ensures ExactAt(g, full, edge, now, window)
  {
    var last := if latest < now then now else latest;
    AgreesLater(g, full, latest, last);
    TrimAgrees(g, full, edge, now, last);
    var g' := TrimEdge(g, edge, now);
    RollingIsExact(At(g'.entries, edge), At(full.entries, edge), At(g'.samples, edge), At(full.samples, edge), now,
                   last, window);
  }

  lemma RollingIsExact(entries: seq<Timed<string>>, allEntries: seq<Timed<string>>, samples: seq<Timed<Sample>>,
                       allSamples: seq<Timed<Sample>>, now: real, latest: real, window: real)
    requires TailOf(entries, allEntries, latest) && TailOf(samples, allSamples, latest)
    requires 0.0 < window && latest <= now + (LONGEST - window)
    ensures RollingOver(entries, samples, window, now) == RollingOver(allEntries, allSamples, window, now)
  {
    WindowIsExact(entries, allEntries, now, latest, window);
    WindowIsExact(samples, allSamples, now, latest, window);
  }

  /** A sample recorded at the far end of the window, then a call so late that it drops it. */
  function LateCall(edge: string, now: real, latest: real, window: real): seq<(Op, real)> {
    [(Register(edge, 1), now - window), (Refresh(edge), latest)]
  }

  lemma RunLast(g: Graph, ops: seq<(Op, real)>, before: Graph)
    requires ops != [] && before == Run(g, ops[..|ops| - 1])
    ensures Run(g, ops) == Step(before, ops[|ops| - 1].0, ops[|ops| - 1].1)
  {
  }

  lemma TwoSteps(g: Graph, ops: seq<(Op, real)>)
    requires |ops| == 2
    ensures Run(g, ops) == Step(Step(g, ops[0].0, ops[0].1), ops[1].0, ops[1].1)
  {
    var first := ops[..1];
    assert first[..0] == [];
    RunLast(g, first, g);
    RunLast(g, ops, Step(g, ops[0].0, ops[0].1));
  }

  lemma AfterLateCall(empty: Graph, g: Graph, edge: string, now: real, latest: real, window: real)
    requires empty == EmptyGraph(empty.trimming) && 0.0 < window <= LONGEST && latest > now + (LONGEST - window)
    requires g == Step(Step(empty, Register(edge, 1), now - window), Refresh(edge), latest)
    ensures |Since(At(TrimEdge(g, edge, now).samples, edge), now - window)| == if empty.trimming then 1 else 2
    ensures !empty.trimming ==> TrimEdge(g, edge, now) == g
  {
    var t := now - window;
    var registered := empty.(capacity := empty.capacity.Put(edge, 1));
    var first, second := Timed(t, SampleOf(registered, edge)),
        Timed(latest, SampleOf(Record(registered, edge, t), edge));
    assert Trim([first], t - LONGEST) == [first];
    var g1 := Step(empty, Register(edge, 1), t);
    assert At(g1.samples, edge) == [first];
    var held := if empty.trimming then [] else [first];
    assert Trim([first], latest - LONGEST) == [];
    assert At(TrimEdge(g1, edge, latest).samples, edge) == held;
    assert Trim([second], latest - LONGEST) == [second];
    assert At(g.samples, edge) == held + [second];
    assert Trim([second], now - LONGEST) == [second];
    assert At(TrimEdge(g, edge, now).samples, edge) == held + [second];
    assert Since([second], t) == [second];
    assert (held + [second])[1..] == if empty.trimming then [] else [second];
  }

  lemma LateRun(empty: Graph, ops: seq<(Op, real)>, edge: string, now: real, latest: real, window: real)
    requires empty == EmptyGraph(empty.trimming) && 0.0 < window <= LONGEST && latest > now + (LONGEST - window)
    requires ops == LateCall(edge, now, latest, window)
    ensures |Since(At(TrimEdge(Run(empty, ops), edge, now).samples, edge), now - window)|
            == if empty.trimming then 1 else 2
    ensures !empty.trimming ==> TrimEdge(Run(empty, ops), edge, now) == Run(empty, ops)
  {
    TwoSteps(empty, ops);
    AfterLateCall(empty, Run(empty, ops), edge, now, latest, window);
  }

  lemma LateCallLosesSample(ops: seq<(Op, real)>, edge: string, now: real, latest: real, window: real)
    requires 0.0 < window <= LONGEST && latest > now + (LONGEST - window) && ops == LateCall(edge, now, latest, window)
    ensures UpTo(ops, latest)
    ensures |Since(At(TrimEdge(Trimmed(ops), edge, now).samples, edge), now - window)| == 1
    ensures |Since(At(Untrimmed(ops).samples, edge), now - window)| == 2
  {
    LateRun(EmptyGraph(true), ops, edge, now, latest, window);
    LateRun(EmptyGraph(false), ops, edge, now, latest, window);
  }

  /** Every run without a call later than `latest`, in whatever order, shows an exact window at `now`. */
  ghost predicate AlwaysExact(now: real, latest: real, window: real)
    requires window > 0.0
  {
    forall ops: seq<(Op, real)>, edge {:trigger ExactAt(Trimmed(ops), Untrimmed(ops), edge, now, window)} ::
      UpTo(ops, latest) ==> ExactAt(Trimmed(ops), Untrimmed(ops), edge, now, window)
  }

  /** A window computed at `now` from the trimmed histories equals that over the untrimmed ones, on all histories in
      whatever order, exactly when the latest call is no more than the unused part of the longest window ahead. */
  lemma WindowsEqualFullHistoryIff(now: real, latest: real, window: real)
    requires 0.0 < window <= LONGEST
    ensures AlwaysExact(now, latest, window) <==> latest <= now + (LONGEST - window)
  {
    if latest <= now + (LONGEST - window) {
      forall ops: seq<(Op, real)>, edge | UpTo(ops, latest)
        ensures ExactAt(Trimmed(ops), Untrimmed(ops), edge, now, window)
      {
        RunsAgree(ops, latest);
        LookIsExact(Trimmed(ops), Untrimmed(ops), edge, now, latest, window);
      }
    } else {
      var ops := LateCall("edge", now, latest, window);
      LateCallLosesSample(ops, "edge", now, latest, window);
      assert !ExactAt(Trimmed(ops), Untrimmed(ops), "edge", now, window);
    }
  }

  // ---------------------------------------------------------------- the flow count

  /** The flow rate counts all entries left after trimming: those of the longest window exactly when no entry made out
      of order hides behind a later one. */
  lemma FlowCountsWindowIff(ops: seq<(Op, real)>, edge: string, now: real)
    requires UpTo(ops, now)
    ensures
      var entries := At(Untrimmed(ops).entries, edge);
      |At(TrimEdge(Trimmed(ops), edge, now).entries, edge)| == |Since(entries, now - LONGEST)|
      <==> NoStragglers(entries, now - LONGEST)
  {
    RunsAgree(ops, now);
    TrimCountsWindowIff(At(Trimmed(ops).entries, edge), At(Untrimmed(ops).entries, edge), now);
  }

  /** Times never go backwards, up to `now`. */
  ghost predicate Forward(ops: seq<(Op, real)>, now: real) {
    UpTo(ops, now) && forall i, j :: 0 <= i < j < |ops| ==> ops[i].1 <= ops[j].1
  }

  ghost predicate InOrder<T>(items: seq<Timed<T>>, now: real) {
    && (forall i :: 0 <= i < |items| ==> items[i].time <= now)
    && forall i, j :: 0 <= i < j < |items| ==> items[i].time <= items[j].time
  }

  lemma {:induction false} RecordAllKeepsEntries(full: Graph, edges: seq<string>, now: real)
    requires !full.trimming
    ensures RecordAll(full, edges, now).entries == full.entries && !RecordAll(full, edges, now).trimming
    decreases |edges|
  {
    if edges != [] {
      RecordAllKeepsEntries(Record(full, edges[0], now), edges[1..], now);
    }
  }

  lemma MoveAddsEntry(full: Graph, id: string, segment: Option<string>, now: real, edge: string)
    requires !full.trimming && InOrder(At(full.entries, edge), now)
    ensures !Move(full, id, segment, now).trimming && InOrder(At(Move(full, id, segment, now).entries, edge), now)
  {
    RecordAllKeepsEntries(Place(full, id, segment, now), Affected(segment, Prior(full, id)), now);
  }

  lemma StepAddsEntry(full: Graph, op: Op, now: real, edge: string)
    requires !full.trimming && InOrder(At(full.entries, edge), now)
    ensures !Step(full, op, now).trimming && InOrder(At(Step(full, op, now).entries, edge), now)
  {
    match op
    case ObserveVehicle(id, v) => MoveAddsEntry(full.(vehicles := full.vehicles.Put(id, v)), id, v.segment, now, edge);
    case ObservePedestrian(id, segment) =>
      MoveAddsEntry(full.(pedestrians := full.pedestrians[id := segment]), id, segment, now, edge);
    case Register(_, _) =>
    case Refresh(_) =>
    case Look(_) =>
  }

  lemma {:induction false} ForwardEntriesInOrder(ops: seq<(Op, real)>, edge: string, now: real)
    requires Forward(ops, now)
    ensures !Untrimmed(ops).trimming && InOrder(At(Untrimmed(ops).entries, edge), now)
  {
    if ops != [] {
      var n := |ops| - 1;
      ForwardEntriesInOrder(ops[..n], edge, ops[n].1);
      StepAddsEntry(Untrimmed(ops[..n]), ops[n].0, ops[n].1, edge);
    }
  }

  /** On a clock that never goes backwards the flow count is exact. */
  lemma ForwardFlowIsExact(ops: seq<(Op, real)>, edge: string, now: real)
    requires Forward(ops, now)
    ensures |At(TrimEdge(Trimmed(ops), edge, now).entries, edge)|
      == |Since(At(Untrimmed(ops).entries, edge), now - LONGEST)|
  {
    ForwardEntriesInOrder(ops, edge, now);
    FlowCountsWindowIff(ops, edge, now);
  }

  /** A longer window never has fewer samples. */
  lemma SampleCountsGrow(entries: seq<Timed<string>>, samples: seq<Timed<Sample>>, window: real, longer: real,
                         now: real)
    requires 0.0 < window <= longer
    ensures RollingOver(entries, samples, window, now).samples <= RollingOver(entries, samples, longer, now).samples
  {
    SinceGrows(samples, now - window, now - longer);
  }

  // ---------------------------------------------------------------- every vehicle is counted once

  function Located(vehicles: Dict<string, Vehicle>, ids: seq<string>): nat {
    if ids == [] then 0
    else
      var id := ids[|ids| - 1];
      Located(vehicles, ids[..|ids| - 1]) + (if id in vehicles.at && vehicles.at[id].segment.Some? then 1 else 0)
  }

  /** Sum over edges of the vehicles on each. */
  function CountOver(vehicles: Dict<string, Vehicle>, ids: seq<string>, edges: seq<string>): nat {
    if edges == [] then 0
    else CountOver(vehicles, ids, edges[..|edges| - 1]) + |VehiclesOn(vehicles, ids, edges[|edges| - 1])|
  }

  /** Vehicles are only ever on defined edges. */
  ghost predicate OnKnownEdges(g: Graph) {
    && g.capacity.Ok() && g.vehicles.Ok()
    && forall id :: id in g.vehicles.at && g.vehicles.at[id].segment.Some? ==>
        g.vehicles.at[id].segment.value in g.capacity.at
  }

  /** Dropping one vehicle from the list drops one from its edge's count. */
  lemma {:induction false} CountWithout(vehicles: Dict<string, Vehicle>, ids: seq<string>, edges: seq<string>)
    requires ids != [] && Distinct(edges)
    ensures
      var id := ids[|ids| - 1];
      CountOver(vehicles, ids, edges) == CountOver(vehicles, ids[..|ids| - 1], edges)
        + (if id in vehicles.at && vehicles.at[id].segment.Some? && vehicles.at[id].segment.value in edges then 1
           else 0)
  {
    if edges != [] {
      var n := |edges| - 1;
      CountWithout(vehicles, ids, edges[..n]);
      assert edges == edges[..n] + [edges[n]] && edges[n] !in edges[..n];
    }
  }

  lemma {:induction false} CountIsLocated(vehicles: Dict<string, Vehicle>, ids: seq<string>, edges: seq<string>)
    requires Distinct(edges)
    requires forall id :: id in ids && id in vehicles.at && vehicles.at[id].segment.Some? ==>
        vehicles.at[id].segment.value in edges
    ensures CountOver(vehicles, ids, edges) == Located(vehicles, ids)
  {
    if ids == [] {
      NoVehicles(vehicles, edges);
    } else {
      CountWithout(vehicles, ids, edges);
      CountIsLocated(vehicles, ids[..|ids| - 1], edges);
    }
  }

  lemma {:induction false} NoVehicles(vehicles: Dict<string, Vehicle>, edges: seq<string>)
    ensures CountOver(vehicles, [], edges) == 0
  {
    if edges != [] {
      NoVehicles(vehicles, edges[..|edges| - 1]);
    }
  }

  lemma {:induction false} RecordAllKeepsActors(g: Graph, edges: seq<string>, now: real)
    ensures RecordAll(g, edges, now).capacity == g.capacity && RecordAll(g, edges, now).vehicles == g.vehicles
    decreases |edges|
  {
    if edges != [] {
      RecordAllKeepsActors(Record(g, edges[0], now), edges[1..], now);
    }
  }

  lemma MoveKeepsKnown(g: Graph, id: string, segment: Option<string>, now: real)
    requires g.capacity.Ok()
    ensures Move(g, id, segment, now).capacity.Ok() && Move(g, id, segment, now).vehicles == g.vehicles
    ensures forall edge :: edge in g.capacity.at || segment == Some(edge) ==>
        edge in Move(g, id, segment, now).capacity.at
  {
    if segment.Some? {
      g.capacity.PutOk(segment.value, DEFAULT_CAPACITY);
    }
    RecordAllKeepsActors(Place(g, id, segment, now), Affected(segment, Prior(g, id)), now);
  }

  lemma StepKeepsKnown(g: Graph, op: Op, now: real)
    requires OnKnownEdges(g)
    ensures OnKnownEdges(Step(g, op, now))
  {
    match op
    case ObserveVehicle(id, v) =>
      g.vehicles.PutOk(id, v);
      MoveKeepsKnown(g.(vehicles := g.vehicles.Put(id, v)), id, v.segment, now);
    case ObservePedestrian(id, segment) =>
      MoveKeepsKnown(g.(pedestrians := g.pedestrians[id := segment]), id, segment, now);
    case Register(edge, capacity) => g.capacity.PutOk(edge, capacity);
    case Refresh(edge) =>
    case Look(edge) =>
  }

  lemma {:induction false} RunKeepsKnown(trimming: bool, ops: seq<(Op, real)>)
    ensures OnKnownEdges(Run(EmptyGraph(trimming), ops))
  {
    if ops != [] {
      var n := |ops| - 1;
      RunKeepsKnown(trimming, ops[..n]);
      StepKeepsKnown(Run(EmptyGraph(trimming), ops[..n]), ops[n].0, ops[n].1);
    }
  }

  /** Over any run the vehicle counts of all edges add up to the vehicles that are on a road segment. */
  lemma CountsAddUp(trimming: bool, ops: seq<(Op, real)>)
    ensures
      var g := Run(EmptyGraph(trimming), ops);
      CountOver(g.vehicles, g.vehicles.keys, g.capacity.keys) == Located(g.vehicles, g.vehicles.keys)
  {
    RunKeepsKnown(trimming, ops);
    var g := Run(EmptyGraph(trimming), ops);
    CountIsLocated(g.vehicles, g.vehicles.keys, g.capacity.keys);
  }
}
