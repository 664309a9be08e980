/** Cooperative hazard fusion on values: association, merging, negative evidence and the lifecycle sweep. */
module HazardFusion {
  import opened Basics
  import opened Hazards
  import opened HazardIndex

  const CELL_SIZE := 0.001
  const MAX_TEMPORAL_GAP := 7200.0
  const STALE_THRESHOLD := 0.3
  const EXPIRE_THRESHOLD := 0.1

  /** `decay` is the factor by which confidence shrinks over a positive time without observations. */
  datatype Settings = Settings(radius: real, minScore: real, verification: int, metric: Metric, decay: real -> real)

  /** The engine divides by its radius; decay factors lie in [0, 1]. */
  ghost predicate SettingsOk(g: Settings) {
    && g.radius != 0.0
    && (forall p: Position, q: Position {:trigger g.metric(p, q)} :: 0.0 <= g.metric(p, q))
    && forall t: real {:trigger g.decay(t)} :: 0.0 < t ==> 0.0 <= g.decay(t) <= 1.0
  }

  /** Bounds that the observation schema enforces. */
  predicate ObservationOk(o: Observation) {
    0.0 <= o.confidence <= 1.0 && 0.0 <= o.severity <= 1.0 && OnGlobe(o.position)
  }

  /** `hazards` is the active store in insertion order; the ids are references into `objects`. */
  datatype Store = Store(
    objects: Objects,
    active: seq<string>,
    archive: set<string>,
    index: Index,
    history: map<string, seq<Observation>>)

  const EMPTY_STORE := Store(map[], [], {}, EMPTY_INDEX, map[])

  // ---------------------------------------------------------------- association

  function TypeCompatibility(a: HazardType, b: HazardType): real {
    if a == b then 1.0
    else if (a.Pothole? && b.Bump?) || (a.Bump? && b.Pothole?) then 0.6
    else 0.0
  }

  function TimeFactor(gap: real): (f: real)
    ensures 0.0 <= f <= 1.0
  {
    if gap <= 0.0 then 1.0
    else if gap >= MAX_TEMPORAL_GAP then 0.0
    else 1.0 - gap / MAX_TEMPORAL_GAP
  }

  predicate SegmentsClash(a: Option<string>, b: Option<string>) {
    a.Some? && b.Some? && a != b
  }

  function Score(g: Settings, h: Hazard, o: Observation): real
    requires g.radius != 0.0
  {
    if TypeCompatibility(h.hazardType, o.hazardType) == 0.0 then 0.0
    else if SegmentsClash(h.roadSegment, o.roadSegment) then 0.0
    else if g.metric(h.position, o.position) > g.radius then 0.0
    else
      (1.0 - g.metric(h.position, o.position) / g.radius) * TypeCompatibility(h.hazardType, o.hazardType)
      * TimeFactor(AbsReal(o.observedAt - h.lastSeen)) * (if o.source !in h.sources then 1.0 else 0.7)
  }

  lemma ProductInUnit(a: real, b: real, c: real, d: real)
    requires 0.0 <= a <= 1.0 && 0.0 <= b <= 1.0 && 0.0 <= c <= 1.0 && 0.0 <= d <= 1.0
    ensures 0.0 <= a * b * c * d <= 1.0
  {
    UnitProduct(a, b);
    UnitProduct(a * b, c);
    UnitProduct(a * b * c, d);
  }

  lemma UnitProduct(a: real, b: real)
    requires 0.0 <= a <= 1.0 && 0.0 <= b <= 1.0
    ensures 0.0 <= a * b <= b
  {
  }

  /** A score lies in [0, 1]; a positive one needs compatible types, no clash of road segments and a distance
      below the radius. */
  lemma ScoreInUnit(g: Settings, h: Hazard, o: Observation)
    requires SettingsOk(g)
    ensures 0.0 <= Score(g, h, o) <= 1.0
    ensures Score(g, h, o) > 0.0 ==>
              && TypeCompatibility(h.hazardType, o.hazardType) > 0.0
              && !SegmentsClash(h.roadSegment, o.roadSegment)
              && g.metric(h.position, o.position) <= g.radius
  {
    var d := g.metric(h.position, o.position);
    if d <= g.radius {
      assert 0.0 <= d / g.radius <= 1.0 by {
        assert d / g.radius * g.radius == d;
      }
      ProductInUnit(1.0 - d / g.radius, TypeCompatibility(h.hazardType, o.hazardType),
                    TimeFactor(AbsReal(o.observedAt - h.lastSeen)), if o.source !in h.sources then 1.0 else 0.7);
    }
  }

  /** The first of the best-scoring candidates, if any scores above zero. */
  function Best(g: Settings, objects: Objects, ids: seq<string>, o: Observation): (Option<string>, real)
    requires g.radius != 0.0 && forall id :: id in ids ==> id in objects
  {
    if ids == [] then (None, 0.0)
    else
      var n := |ids| - 1;
      var before := Best(g, objects, ids[..n], o);
      assert ids[n] in ids;
      if Score(g, objects[ids[n]], o) > before.1 then (Some(ids[n]), Score(g, objects[ids[n]], o)) else before
  }

  lemma BestSnoc(g: Settings, objects: Objects, ids: seq<string>, o: Observation, k: nat)
    requires g.radius != 0.0 && k < |ids| && forall id :: id in ids ==> id in objects
    ensures
      var before := Best(g, objects, ids[..k], o);
      assert ids[k] in ids;
      Best(g, objects, ids[..k + 1], o) ==
      if Score(g, objects[ids[k]], o) > before.1 then (Some(ids[k]), Score(g, objects[ids[k]], o)) else before
  {
    assert ids[..k + 1][..k] == ids[..k];
  }

  function Candidates(g: Settings, s: Store, o: Observation): seq<string> {
    Nearby(s.index, s.objects, g.metric, CELL_SIZE, o.position, g.radius, None)
  }

  // ---------------------------------------------------------------- steps

  function Fused(base: real, confidence: real, newSource: bool): real {
    if newSource then Clamp(1.0 - (1.0 - base) * (1.0 - confidence * 0.5))
    else Clamp(base + confidence * 0.05 * (1.0 - base))
  }

  function Blend(before: real, x: real, n: nat): real {
    var weight := 1.0 / (n + 1) as real;
    before * (1.0 - weight) + x * weight
  }

  function Ttl(t: HazardType): int {
    match t
    case Pothole => 86400
    case Bump => 604800
    case Debris => 3600
    case Flood => 7200
    case Landslide => 86400
    case Animal => 1800
    case StalledVehicle => 3600
    case Construction => 604800
    case LaneClosure => 86400
    case Accident => 7200
    case LowVisibility => 3600
    case Other => 3600
  }

  function Fresh(o: Observation): Hazard {
    Hazard(o.hazardType, o.position, o.severity, o.confidence * 0.5, o.observedAt, o.observedAt, Ttl(o.hazardType),
           [o.source], 1, 0, Candidate, o.roadSegment)
  }

  function Merged(g: Settings, h: Hazard, o: Observation): Hazard {
    var sources := if o.source in h.sources then h.sources else h.sources + [o.source];
    h.(position := Position(Blend(h.position.lat, o.position.lat, h.evidence),
                            Blend(h.position.lon, o.position.lon, h.evidence)),
       lastSeen := if o.observedAt > h.lastSeen then o.observedAt else h.lastSeen,
       sources := sources,
       evidence := h.evidence + 1,
       confidence := Fused(h.confidence, o.confidence, o.source !in h.sources),
       severity := Blend(h.severity, o.severity, h.evidence),
       roadSegment := if h.roadSegment.None? then o.roadSegment else h.roadSegment,
       state := if h.state.Candidate? && |sources| >= g.verification then Verified else h.state)
  }

  function Create(s: Store, o: Observation, id: string): Store {
    Store(s.objects[id := Fresh(o)], s.active + [id], s.archive, Place(s.index, id, CellAt(o.position, CELL_SIZE)),
          s.history[id := [o]])
  }

  function Merge(g: Settings, s: Store, id: string, o: Observation): Store
    requires id in s.objects
  {
    var h := Merged(g, s.objects[id], o);
    s.(objects := s.objects[id := h],
       index := Place(s.index, id, CellAt(h.position, CELL_SIZE)),
       history := s.history[id := (if id in s.history then s.history[id] else []) + [o]])
  }

  function Ingest(g: Settings, s: Store, o: Observation, freshId: string): Store
    requires g.radius != 0.0 && Resolved(s)
  {
    NearbyResolves(s, g, o.position, g.radius, None);
    var (found, score) := Best(g, s.objects, Candidates(g, s, o), o);
    if found.Some? && score >= g.minScore && found.value in s.objects then Merge(g, s, found.value, o)
    else Create(s, o, freshId)
  }

  function Contradicted(h: Hazard): Hazard {
    var confidence := MaxReal(0.0, h.confidence - 0.2 * h.confidence);
    h.(contradictions := h.contradictions + 1, confidence := confidence,
       state := if confidence < EXPIRE_THRESHOLD then Expired else if confidence < STALE_THRESHOLD then Stale
           else h.state)
  }

  /** Moves a hazard from the active store to the archive. */
  function Archive(s: Store, id: string): Store {
    s.(active := Without(s.active, id), index := Take(s.index, id),
       archive := if id in s.active then s.archive + {id} else s.archive)
  }

  function Contradict(s: Store, id: string): Store {
    if id in s.objects then
      var h := Contradicted(s.objects[id]);
      var s' := s.(objects := s.objects[id := h]);
      if h.confidence < EXPIRE_THRESHOLD then Archive(s', id)
      else s'.(index := Place(s.index, id, CellAt(h.position, CELL_SIZE)))
    else s
  }

  function ContradictAll(s: Store, ids: seq<string>): Store {
    if ids == [] then s else Contradict(ContradictAll(s, ids[..|ids| - 1]), ids[|ids| - 1])
  }

  /** A zero radius counts as none given. */
  function SearchRadius(g: Settings, radius: Option<real>): real {
    if radius.Some? && radius.value != 0.0 then radius.value else g.radius
  }

  function Contradiction(g: Settings, s: Store, p: Position, t: HazardType, radius: Option<real>): Store {
    ContradictAll(s, Nearby(s.index, s.objects, g.metric, CELL_SIZE, p, SearchRadius(g, radius), Some(t)))
  }

  function Decayed(g: Settings, h: Hazard, now: real): real {
    if now - h.lastSeen > 0.0 then Weakened(h.confidence, g.decay(now - h.lastSeen)) else h.confidence
  }

  function SweptState(g: Settings, h: Hazard, now: real): HazardState {
    if now - h.firstSeen > Ttl(h.hazardType) as real || Decayed(g, h, now) < EXPIRE_THRESHOLD then Expired
    else if Decayed(g, h, now) < STALE_THRESHOLD then Stale
    else h.state
  }

  predicate SweepChanges(g: Settings, h: Hazard, now: real) {
    SweptState(g, h, now) != h.state || AbsReal(Decayed(g, h, now) - h.confidence) > 0.000001
  }

  function Swept(g: Settings, h: Hazard, now: real): Hazard {
    if !h.state.Expired? && SweepChanges(g, h, now)
    then h.(confidence := MaxReal(0.0, Decayed(g, h, now)), state := SweptState(g, h, now))
    else h
  }

  function Expiring(g: Settings, s: Store, now: real): set<string> {
    set id | id in s.active && id in s.objects && !s.objects[id].state.Expired?
        && SweptState(g, s.objects[id], now).Expired?
  }

  function ArchiveAll(s: Store, ids: seq<string>): Store {
    if ids == [] then s else Archive(ArchiveAll(s, ids[..|ids| - 1]), ids[|ids| - 1])
  }

  function Sweep(g: Settings, s: Store, now: real): Store {
    var swept := map id | id in s.objects :: if id in s.active then Swept(g, s.objects[id], now) else s.objects[id];
    ArchiveAll(s.(objects := swept), Only(s.active, Expiring(g, s, now)))
  }

  // ---------------------------------------------------------------- invariant

  ghost predicate Resolved(s: Store) {
    HazardIndex.Valid(s.index) && forall id :: id in s.index.cellOf ==> id in s.objects
  }

  lemma NearbyResolves(s: Store, g: Settings, p: Position, radius: real, wanted: Option<HazardType>)
    requires Resolved(s)
    ensures
      var r := Nearby(s.index, s.objects, g.metric, CELL_SIZE, p, radius, wanted);
      Distinct(r) && forall id :: id in r ==> id in s.objects && id in s.index.cellOf
  {
    NearbyIs(s.index, s.objects, g.metric, CELL_SIZE, p, radius, wanted);
  }

  /** The stores agree: the index holds exactly the active hazards, each in the cell of its position; active and
      archived hazards are disjoint and together are all there are. */
  ghost predicate Consistent(s: Store) {
    && Distinct(s.active) && HazardIndex.Valid(s.index) && Placed(s.index, s.objects, CELL_SIZE)
    && (forall id {:trigger id in s.index.cellOf} {:trigger id in s.active} :: id in s.index.cellOf <==> id in s.active)
    && (forall id {:trigger id in s.objects} {:trigger id in s.archive} ::
          id in s.objects <==> id in s.active || id in s.archive)
    && (forall id {:trigger id in s.archive} :: id in s.archive ==> id !in s.active)
  }

  ghost predicate HazardOk(g: Settings, h: Hazard) {
    && 0.0 <= h.confidence <= 1.0
    && OnGlobe(h.position)
    && Distinct(h.sources)
    && (h.state.Verified? ==> |h.sources| >= g.verification)
  }

  ghost predicate Sound(g: Settings, s: Store) {
    forall id {:trigger s.objects[id]} :: id in s.objects ==>
      HazardOk(g, s.objects[id]) && (s.objects[id].state.Expired? <==> id in s.archive)
  }

  ghost predicate Valid(g: Settings, s: Store) {
    Consistent(s) && Sound(g, s)
  }

  function Stage(st: HazardState): nat {
    match st
    case Candidate => 0
    case Verified => 1
    case Stale => 2
    case Expired => 3
  }

  /** A hazard neither disappears nor moves back in its lifecycle. */
  ghost predicate Stays(s: Store, s': Store, id: string) {
    id in s.objects ==> id in s'.objects && Stage(s.objects[id].state) <= Stage(s'.objects[id].state)
  }

  ghost predicate Advances(s: Store, s': Store) {
    forall id {:trigger Stays(s, s', id)} :: Stays(s, s', id)
  }

  // ---------------------------------------------------------------- single hazards

  lemma FreshOk(g: Settings, o: Observation)
    requires ObservationOk(o)
    ensures HazardOk(g, Fresh(o)) && Fresh(o).state.Candidate?
  {
  }

  /** A blend of two values lies between their bounds. */
  lemma BlendIsBetween(before: real, x: real, n: nat, low: real, high: real)
    requires low <= before <= high && low <= x <= high
    ensures low <= Blend(before, x, n) <= high
  {
    var weight := 1.0 / (n + 1) as real;
    assert 0.0 < weight <= 1.0 && Blend(before, x, n) == before * (1.0 - weight) + x * weight;
    BetweenBounds(before, x, weight, low, high);
  }

  lemma BetweenBounds(before: real, x: real, weight: real, low: real, high: real)
    requires low <= before <= high && low <= x <= high && 0.0 <= weight <= 1.0
    ensures low <= before * (1.0 - weight) + x * weight <= high
  {
    NotNegative(before - low, 1.0 - weight);
    NotNegative(x - low, weight);
    NotNegative(high - before, 1.0 - weight);
    NotNegative(high - x, weight);
  }

  lemma NotNegative(a: real, b: real)
    requires 0.0 <= a && 0.0 <= b
    ensures 0.0 <= a * b
  {
  }

  lemma MergedOk(g: Settings, h: Hazard, o: Observation)
    requires HazardOk(g, h) && OnGlobe(o.position)
    ensures HazardOk(g, Merged(g, h, o)) && Stage(h.state) <= Stage(Merged(g, h, o).state)
    ensures Merged(g, h, o).state.Expired? <==> h.state.Expired?
  {
    BlendIsBetween(h.position.lat, o.position.lat, h.evidence, -90.0, 90.0);
    BlendIsBetween(h.position.lon, o.position.lon, h.evidence, -180.0, 180.0);
  }

  lemma ContradictedOk(g: Settings, h: Hazard)
    requires HazardOk(g, h) && !h.state.Expired?
    ensures HazardOk(g, Contradicted(h)) && Stage(h.state) <= Stage(Contradicted(h).state)
    ensures Contradicted(h).state.Expired? <==> Contradicted(h).confidence < EXPIRE_THRESHOLD
  {
  }

  lemma DecayShrinks(g: Settings, h: Hazard, now: real)
    requires SettingsOk(g) && 0.0 <= h.confidence
    ensures 0.0 <= Decayed(g, h, now) <= h.confidence
  {
    if now - h.lastSeen > 0.0 {
      assert 0.0 <= g.decay(now - h.lastSeen) <= 1.0;
    }
  }

  lemma SweptOk(g: Settings, h: Hazard, now: real)
    requires SettingsOk(g) && HazardOk(g, h)
    ensures HazardOk(g, Swept(g, h, now)) && Stage(h.state) <= Stage(Swept(g, h, now).state)
    ensures Swept(g, h, now).position == h.position
    ensures !h.state.Expired? ==> (Swept(g, h, now).state.Expired? <==> SweptState(g, h, now).Expired?)
  {
    DecayShrinks(g, h, now);
  }

  // ---------------------------------------------------------------- every step keeps the invariant

  lemma CreateKeeps(g: Settings, s: Store, o: Observation, id: string)
    requires Valid(g, s) && ObservationOk(o) && id !in s.objects
    ensures Valid(g, Create(s, o, id)) && Advances(s, Create(s, o, id))
  {
    FreshOk(g, o);
    PlaceKeepsValid(s.index, id, CellAt(o.position, CELL_SIZE));
  }

  /** Replacing an active hazard's object and refiling it. */
  lemma RefileKeeps(g: Settings, s: Store, id: string, h: Hazard, history: map<string, seq<Observation>>)
    requires Valid(g, s) && id in s.active && HazardOk(g, h) && !h.state.Expired?
      && Stage(s.objects[id].state) <= Stage(h.state)
    ensures
      var s' := s.(objects := s.objects[id := h], index := Place(s.index, id, CellAt(h.position, CELL_SIZE)),
                   history := history);
      Valid(g, s') && Advances(s, s')
  {
    PlaceKeepsValid(s.index, id, CellAt(h.position, CELL_SIZE));
  }

  lemma ArchiveKeeps(g: Settings, s: Store, id: string, h: Hazard)
    requires Valid(g, s) && id in s.active && HazardOk(g, h) && h.state.Expired?
    ensures
      var s' := Archive(s.(objects := s.objects[id := h]), id);
      Valid(g, s') && Advances(s, s')
  {
    WithoutMembers(s.active, id);
    TakeKeepsValid(s.index, id);
  }

  lemma MergeKeeps(g: Settings, s: Store, id: string, o: Observation)
    requires Valid(g, s) && id in s.active && OnGlobe(o.position)
    ensures Valid(g, Merge(g, s, id, o)) && Advances(s, Merge(g, s, id, o))
  {
    MergedOk(g, s.objects[id], o);
    RefileKeeps(g, s, id, Merged(g, s.objects[id], o), Merge(g, s, id, o).history);
  }

  lemma ContradictKeeps(g: Settings, s: Store, id: string)
    requires Valid(g, s) && id in s.active
    ensures Valid(g, Contradict(s, id)) && Advances(s, Contradict(s, id))
    ensures forall x :: x in s.active && x != id ==> x in Contradict(s, id).active
  {
    ContradictedOk(g, s.objects[id]);
    WithoutMembers(s.active, id);
    var h := Contradicted(s.objects[id]);
    if h.confidence < EXPIRE_THRESHOLD {
      ArchiveKeeps(g, s, id, h);
    } else {
      RefileKeeps(g, s, id, h, s.history);
    }
  }

  lemma AdvancesTransitively(s: Store, s': Store, s'': Store)
    requires Advances(s, s') && Advances(s', s'')
    ensures Advances(s, s'')
  {
    forall id
      ensures Stays(s, s'', id)
    {
      assert Stays(s, s', id) && Stays(s', s'', id);
    }
  }

  /** The step from `s` to `s'` keeps the invariant, moves no hazard back, and adds only the created ids. */
  ghost predicate Kept(g: Settings, s: Store, s': Store, created: set<string>) {
    Valid(g, s') && Advances(s, s') && s'.objects.Keys == s.objects.Keys + created
  }

  lemma KeptTransitively(g: Settings, s: Store, s': Store, s'': Store, created: set<string>, created': set<string>)
    requires Kept(g, s, s', created) && Kept(g, s', s'', created')
    ensures Kept(g, s, s'', created + created')
  {
    AdvancesTransitively(s, s', s'');
  }

  lemma ContradictIsKept(g: Settings, s: Store, id: string)
    requires Valid(g, s) && id in s.active
    ensures Kept(g, s, Contradict(s, id), {})
    ensures forall x :: x in s.active && x != id ==> x in Contradict(s, id).active
  {
    ContradictKeeps(g, s, id);
  }

  lemma {:induction false} ContradictAllKeeps(g: Settings, s: Store, ids: seq<string>)
    requires Valid(g, s) && Distinct(ids) && forall id :: id in ids ==> id in s.active
    ensures Kept(g, s, ContradictAll(s, ids), {})
    ensures forall x :: x in s.active && x !in ids ==> x in ContradictAll(s, ids).active
  {
    if ids != [] {
      var n := |ids| - 1;
      var s' := ContradictAll(s, ids[..n]);
      assert ids == ids[..n] + [ids[n]] && ids[n] !in ids[..n];
      ContradictAllKeeps(g, s, ids[..n]);
      ContradictIsKept(g, s', ids[n]);
      var none: set<string> := {};
      KeptTransitively(g, s, s', Contradict(s', ids[n]), none, none);
      assert none + none == none;
    }
  }

  /** Archiving distinct active hazards takes exactly them out of the store and the index. */
  lemma {:induction false} ArchiveAllIs(s: Store, ids: seq<string>)
    requires HazardIndex.Valid(s.index) && Distinct(s.active) && Distinct(ids) && forall id :: id in ids ==>
        id in s.active
    ensures
      var r := ArchiveAll(s, ids);
      && r.objects == s.objects && r.history == s.history && HazardIndex.Valid(r.index) && Distinct(r.active)
      && (forall id :: id in r.active <==> id in s.active && id !in ids)
      && (forall id :: id in r.archive <==> id in s.archive || id in ids)
      && (forall id :: id in r.index.cellOf <==> id in s.index.cellOf && id !in ids)
      && (forall id :: id in r.index.cellOf ==> r.index.cellOf[id] == s.index.cellOf[id])
  {
    if ids != [] {
      var n := |ids| - 1;
      var r := ArchiveAll(s, ids[..n]);
      assert ids == ids[..n] + [ids[n]] && ids[n] !in ids[..n];
      ArchiveAllIs(s, ids[..n]);
      WithoutMembers(r.active, ids[n]);
      TakeKeepsValid(r.index, ids[n]);
    }
  }

  /** What a sweep does: every active hazard decays, and exactly the expired ones move to the archive. */
  lemma SweepIs(g: Settings, s: Store, now: real)
    requires Valid(g, s)
    ensures
      var r := Sweep(g, s, now);
      && HazardIndex.Valid(r.index) && Distinct(r.active) && r.objects.Keys == s.objects.Keys
      && (forall id :: id in s.objects ==>
          r.objects[id] == if id in s.active then Swept(g, s.objects[id], now) else s.objects[id])
      && (forall id :: id in r.active <==> id in s.active && !SweptState(g, s.objects[id], now).Expired?)
      && (forall id :: id in r.archive <==>
          id in s.archive || (id in s.active && SweptState(g, s.objects[id], now).Expired?))
      && (forall id :: id in r.index.cellOf <==> id in r.active)
      && (forall id :: id in r.index.cellOf ==> r.index.cellOf[id] == s.index.cellOf[id])
  {
    OnlyMembers(s.active, Expiring(g, s, now));
    var swept := map id | id in s.objects :: if id in s.active then Swept(g, s.objects[id], now) else s.objects[id];
    ArchiveAllIs(s.(objects := swept), Only(s.active, Expiring(g, s, now)));
  }

  lemma SweepKeepsSound(g: Settings, s: Store, now: real, id: string)
    requires SettingsOk(g) && Valid(g, s) && id in s.objects
    ensures
      var r := Sweep(g, s, now);
      && id in r.objects && HazardOk(g, r.objects[id]) && (r.objects[id].state.Expired? <==> id in r.archive)
      && Stage(s.objects[id].state) <= Stage(r.objects[id].state)
      && r.objects[id].position == s.objects[id].position
  {
    SweepIs(g, s, now);
    SweptOk(g, s.objects[id], now);
  }

  lemma SweepKeeps(g: Settings, s: Store, now: real)
    requires SettingsOk(g) && Valid(g, s)
    ensures Valid(g, Sweep(g, s, now)) && Advances(s, Sweep(g, s, now))
    ensures Sweep(g, s, now).objects.Keys == s.objects.Keys
  {
    SweepIs(g, s, now);
    forall id | id in s.objects
      ensures
        var r := Sweep(g, s, now);
        && id in r.objects && HazardOk(g, r.objects[id]) && (r.objects[id].state.Expired? <==> id in r.archive)
        && Stage(s.objects[id].state) <= Stage(r.objects[id].state)
        && r.objects[id].position == s.objects[id].position
    {
      SweepKeepsSound(g, s, now, id);
    }
  }

  // ---------------------------------------------------------------- matching

  /** The chosen candidate scores above zero and no candidate scores more; none is chosen only if none does. */
  lemma {:induction false} BestIsBest(g: Settings, objects: Objects, ids: seq<string>, o: Observation)
    requires g.radius != 0.0 && forall id :: id in ids ==> id in objects
    ensures
      var (found, score) := Best(g, objects, ids, o);
      && (forall id :: id in ids ==> Score(g, objects[id], o) <= score)
      && (found.None? ==> score == 0.0)
      && (found.Some? ==> found.value in ids && score == Score(g, objects[found.value], o) && score > 0.0)
  {
    if ids != [] {
      var n := |ids| - 1;
      BestIsBest(g, objects, ids[..n], o);
      assert ids == ids[..n] + [ids[n]];
    }
  }

  /** The hazard that an observation is merged into, if any. */
  function MergeTarget(g: Settings, s: Store, o: Observation): Option<string>
    requires g.radius != 0.0 && Resolved(s)
  {
    NearbyResolves(s, g, o.position, g.radius, None);
    var (found, score) := Best(g, s.objects, Candidates(g, s, o), o);
    if found.Some? && score >= g.minScore then found else None
  }

  lemma ConsistentResolves(s: Store)
    requires Consistent(s)
    ensures Resolved(s)
  {
  }

  /** The target is active and scores above zero. */
  lemma TargetIsActive(g: Settings, s: Store, o: Observation)
    requires g.radius != 0.0 && Consistent(s)
    ensures Resolved(s)
    ensures
      var target := MergeTarget(g, s, o);
      target.Some? ==>
        target.value in s.active && target.value in s.objects && Score(g, s.objects[target.value], o) > 0.0
  {
    ConsistentResolves(s);
    NearbyResolves(s, g, o.position, g.radius, None);
    BestIsBest(g, s.objects, Candidates(g, s, o), o);
  }

  lemma IngestIs(g: Settings, s: Store, o: Observation, freshId: string)
    requires g.radius != 0.0 && Consistent(s)
    ensures Resolved(s)
    ensures MergeTarget(g, s, o).Some? ==>
              MergeTarget(g, s, o).value in s.objects
                  && Ingest(g, s, o, freshId) == Merge(g, s, MergeTarget(g, s, o).value, o)
    ensures MergeTarget(g, s, o).None? ==> Ingest(g, s, o, freshId) == Create(s, o, freshId)
  {
    TargetIsActive(g, s, o);
  }

  lemma InRangeIsCandidate(g: Settings, s: Store, o: Observation, id: string)
    requires SettingsOk(g) && Valid(g, s) && Covered(g.metric, CELL_SIZE, o.position, g.radius) && id in s.active
    requires g.metric(o.position, s.objects[id].position) == g.metric(s.objects[id].position, o.position)
    requires Score(g, s.objects[id], o) > 0.0
    ensures id in Candidates(g, s, o)
  {
    ScoreInUnit(g, s.objects[id], o);
    forall x | x in s.index.cellOf
      ensures OnGlobe(s.objects[x].position)
    {
      assert HazardOk(g, s.objects[x]);
    }
    QueryEqualsScan(s.index, s.objects, g.metric, CELL_SIZE, o.position, g.radius, None);
    assert Matches(s.objects, id, g.metric, o.position, g.radius, None);
  }

  /** Where the window covers the observation's surroundings, the grid does not hide a better match: the observation is
      merged into a hazard that scores best among all active ones, and starts a new hazard only if no active one reaches
      the minimum score. */
  lemma MergesIntoBestOfAll(g: Settings, s: Store, o: Observation, id: string)
    requires SettingsOk(g) && Valid(g, s) && Covered(g.metric, CELL_SIZE, o.position, g.radius) && id in s.active
    requires g.metric(o.position, s.objects[id].position) == g.metric(s.objects[id].position, o.position)
    ensures Resolved(s) && id in s.objects
    ensures
      var target := MergeTarget(g, s, o);
      if target.Some? then target.value in s.objects
          && Score(g, s.objects[id], o) <= Score(g, s.objects[target.value], o)
      else Score(g, s.objects[id], o) < g.minScore || Score(g, s.objects[id], o) == 0.0
  {
    TargetIsActive(g, s, o);
    NearbyResolves(s, g, o.position, g.radius, None);
    BestIsBest(g, s.objects, Candidates(g, s, o), o);
    ScoreInUnit(g, s.objects[id], o);
    if Score(g, s.objects[id], o) > 0.0 {
      InRangeIsCandidate(g, s, o, id);
    }
  }

  // ---------------------------------------------------------------- runs

  datatype Op =
    | Observe(o: Observation, freshId: string)
    | Deny(position: Position, hazardType: HazardType, radius: Option<real>)
    | SweepAt(now: real)

  predicate Legal(s: Store, op: Op) {
    op.Observe? ==> ObservationOk(op.o) && op.freshId !in s.objects
  }

  function Step(g: Settings, s: Store, op: Op): Store
    requires g.radius != 0.0 && Resolved(s)
  {
    match op
    case Observe(o, id) => Ingest(g, s, o, id)
    case Deny(p, t, r) => Contradiction(g, s, p, t, r)
    case SweepAt(now) => Sweep(g, s, now)
  }

  /** The ids this step creates. */
  function Creates(g: Settings, s: Store, op: Op): set<string>
    requires g.radius != 0.0 && Resolved(s)
  {
    if op.Observe? && MergeTarget(g, s, op.o).None? then {op.freshId} else {}
  }

  lemma StepKeeps(g: Settings, s: Store, op: Op)
    requires SettingsOk(g) && Valid(g, s) && Legal(s, op)
    ensures Resolved(s) && Kept(g, s, Step(g, s, op), Creates(g, s, op))
  {
    ConsistentResolves(s);
    match op
    case Observe(o, id) => ObserveKeeps(g, s, o, id);
    case Deny(p, t, r) => DenyKeeps(g, s, p, t, r);
    case SweepAt(now) => SweepIsKept(g, s, now);
  }

  lemma SweepIsKept(g: Settings, s: Store, now: real)
    requires SettingsOk(g) && Valid(g, s)
    ensures Kept(g, s, Sweep(g, s, now), {})
  {
    SweepKeeps(g, s, now);
  }

  lemma MergeIsKept(g: Settings, s: Store, id: string, o: Observation)
    requires Valid(g, s) && id in s.active && OnGlobe(o.position)
    ensures Kept(g, s, Merge(g, s, id, o), {})
  {
    MergeKeeps(g, s, id, o);
  }

  lemma CreateIsKept(g: Settings, s: Store, o: Observation, id: string)
    requires Valid(g, s) && ObservationOk(o) && id !in s.objects
    ensures Kept(g, s, Create(s, o, id), {id})
  {
    CreateKeeps(g, s, o, id);
  }

  lemma ObserveKeeps(g: Settings, s: Store, o: Observation, id: string)
    requires SettingsOk(g) && Valid(g, s) && ObservationOk(o) && id !in s.objects
    ensures Resolved(s) && Kept(g, s, Ingest(g, s, o, id), if MergeTarget(g, s, o).None? then {id} else {})
  {
    TargetIsActive(g, s, o);
    IngestIs(g, s, o, id);
    if MergeTarget(g, s, o).Some? {
      MergeIsKept(g, s, MergeTarget(g, s, o).value, o);
    } else {
      CreateIsKept(g, s, o, id);
    }
  }

  lemma DenyKeeps(g: Settings, s: Store, p: Position, t: HazardType, radius: Option<real>)
    requires SettingsOk(g) && Valid(g, s)
    ensures Kept(g, s, Contradiction(g, s, p, t, radius), {})
  {
    var r := SearchRadius(g, radius);
    ConsistentResolves(s);
    NearbyResolves(s, g, p, r, Some(t));
    ContradictAllKeeps(g, s, Nearby(s.index, s.objects, g.metric, CELL_SIZE, p, r, Some(t)));
  }

  /** A run of legal operations; `Resolved` holds in every reachable store. */
  ghost predicate LegalRun(g: Settings, s: Store, ops: seq<Op>)
    requires g.radius != 0.0
    decreases |ops|
  {
    ops == [] || (Legal(s, ops[0]) && Resolved(s) && LegalRun(g, Step(g, s, ops[0]), ops[1..]))
  }

  ghost function Run(g: Settings, s: Store, ops: seq<Op>): Store
    requires g.radius != 0.0 && LegalRun(g, s, ops)
    decreases |ops|
  {
    if ops == [] then s else Run(g, Step(g, s, ops[0]), ops[1..])
  }

  ghost function EverCreated(g: Settings, s: Store, ops: seq<Op>): set<string>
    requires g.radius != 0.0 && LegalRun(g, s, ops)
    decreases |ops|
  {
    if ops == [] then {} else Creates(g, s, ops[0]) + EverCreated(g, Step(g, s, ops[0]), ops[1..])
  }

  lemma {:induction false} RunKeeps(g: Settings, s: Store, ops: seq<Op>)
    requires SettingsOk(g) && Valid(g, s) && LegalRun(g, s, ops)
    ensures Kept(g, s, Run(g, s, ops), EverCreated(g, s, ops))
    decreases |ops|
  {
    if ops != [] {
      var s' := Step(g, s, ops[0]);
      StepKeeps(g, s, ops[0]);
      RunKeeps(g, s', ops[1..]);
      KeptTransitively(g, s, s', Run(g, s', ops[1..]), Creates(g, s, ops[0]), EverCreated(g, s', ops[1..]));
    }
  }

  /** Over any mix of observations, negative evidence and sweeps: the index holds exactly the active hazards;
      active and archived ids partition every id ever created; no active hazard has expired and every archived
      one has; confidences stay in [0, 1]; a verified hazard has enough distinct sources. */
  lemma StoresStayConsistent(g: Settings, ops: seq<Op>)
    requires SettingsOk(g) && LegalRun(g, EMPTY_STORE, ops)
    ensures
      var r := Run(g, EMPTY_STORE, ops);
      && (forall id :: id in r.index.cellOf <==> id in r.active)
      && (forall id :: id in EverCreated(g, EMPTY_STORE, ops) <==> id in r.active || id in r.archive)
      && (forall id :: !(id in r.active && id in r.archive))
      && (forall id :: id in r.active ==> id in r.objects && !r.objects[id].state.Expired?)
      && (forall id :: id in r.archive ==> id in r.objects && r.objects[id].state.Expired?)
      && (forall id :: id in r.objects ==>
            && 0.0 <= r.objects[id].confidence <= 1.0
            && OnGlobe(r.objects[id].position)
            && Distinct(r.objects[id].sources)
            && (r.objects[id].state.Verified? ==> |r.objects[id].sources| >= g.verification))
  {
    RunKeeps(g, EMPTY_STORE, ops);
  }

  /** A hazard's state never moves back, whatever comes between two moments of a run. */
  lemma LifecycleIsOneWay(g: Settings, earlier: seq<Op>, later: seq<Op>)
    requires SettingsOk(g) && LegalRun(g, EMPTY_STORE, earlier) && LegalRun(g, Run(g, EMPTY_STORE, earlier), later)
    ensures Advances(Run(g, EMPTY_STORE, earlier), Run(g, Run(g, EMPTY_STORE, earlier), later))
  {
    RunKeeps(g, EMPTY_STORE, earlier);
    RunKeeps(g, Run(g, EMPTY_STORE, earlier), later);
  }
}
