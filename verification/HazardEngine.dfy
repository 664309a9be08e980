/** The fusion engine and its lifecycle manager as objects around a spatial index, proved to follow the steps on
    values. */
module HazardEngine {
  import opened Basics
  import opened Hazards
  import opened HazardFusion
  import HazardIndex

  /** The state after sweeping the first `k` active hazards. */
  ghost function SweptObjects(g: Settings, s: Store, now: real, k: nat): Objects
    requires k <= |s.active|
  {
    map id | id in s.objects :: if id in s.active[..k] then Swept(g, s.objects[id], now) else s.objects[id]
  }

  lemma SweptOneMore(g: Settings, s: Store, now: real, k: nat)
    requires k < |s.active| && Distinct(s.active) && s.active[k] in s.objects
    ensures SweptObjects(g, s, now, k)[s.active[k]] == s.objects[s.active[k]]
    ensures SweptObjects(g, s, now, k + 1)
      == SweptObjects(g, s, now, k)[s.active[k] := Swept(g, s.objects[s.active[k]], now)]
  {
    assert s.active[k] !in s.active[..k];
    assert forall id :: id in s.active[..k + 1] <==> id in s.active[..k] || id == s.active[k];
  }

  ghost function Changing(g: Settings, s: Store, now: real): set<string> {
    set id | id in s.active && id in s.objects && !s.objects[id].state.Expired? && SweepChanges(g, s.objects[id], now)
  }

  /** The field updates of a merge, in the order the engine makes them. */
  method MergeInto(g: Settings, hazard: Hazard, o: Observation) returns (h: Hazard)
    ensures h == Merged(g, hazard, o)
  {
    h := hazard;
    var n := h.evidence;
    h := h.(position := Position(Blend(h.position.lat, o.position.lat, n), Blend(h.position.lon, o.position.lon, n)));
    if o.observedAt > h.lastSeen {
      h := h.(lastSeen := o.observedAt);
    }
    var isNewSource := o.source !in h.sources;
    if isNewSource {
      h := h.(sources := h.sources + [o.source]);
    }
    h := h.(evidence := h.evidence + 1);
    h := h.(confidence := Fused(h.confidence, o.confidence, isNewSource));
    h := h.(severity := Blend(h.severity, o.severity, n));
    if h.roadSegment.None? && o.roadSegment.Some? {
      h := h.(roadSegment := o.roadSegment);
    }
    if h.state.Candidate? && |h.sources| >= g.verification {
      h := h.(state := Verified);
    }
  }

  lemma {:induction false} ContradictAllKeepsKeys(s: Store, ids: seq<string>)
    ensures ContradictAll(s, ids).objects.Keys == s.objects.Keys
  {
    if ids != [] {
      ContradictAllKeepsKeys(s, ids[..|ids| - 1]);
    }
  }

  lemma TakeLast(ids: seq<string>, k: nat)
    requires k < |ids|
    ensures ids[..k + 1][..k] == ids[..k] && ids[..k + 1][k] == ids[k]
  {
  }

  class HazardFusionEngine {
    const g: Settings
    const index: HazardIndex.HazardSpatialIndex
    var objects: Objects
    var active: seq<string>
    var archive: set<string>
    var history: map<string, seq<Observation>>

    ghost function Model(): Store
      reads this, index
    {
      Store(objects, active, archive, index.Model(), history)
    }

    ghost predicate Ready()
      reads this, index
    {
      SettingsOk(g) && index.size == CELL_SIZE && Valid(g, Model())
    }

    constructor (g: Settings)
      requires SettingsOk(g)
      ensures fresh(index) && this.g == g && Ready() && Model() == EMPTY_STORE
    {
      this.g := g;
      index := new HazardIndex.HazardSpatialIndex(CELL_SIZE);
      objects, active, archive, history := map[], [], {}, map[];
    }

    method FindBestMatch(o: Observation) returns (best: Option<string>, score: real)
      requires Ready()
      ensures Resolved(Model())
      ensures (forall id :: id in Candidates(g, Model(), o) ==> id in objects)
              && (best, score) == Best(g, objects, Candidates(g, Model(), o), o)
    {
      ConsistentResolves(Model());
      NearbyResolves(Model(), g, o.position, g.radius, None);
      var candidates := index.QueryNearby(objects, g.metric, o.position, g.radius, None);
      best, score := None, 0.0;
      for k := 0 to |candidates|
        invariant (best, score) == Best(g, objects, candidates[..k], o)
      {
        var id := candidates[k];
        assert id in candidates;
        BestSnoc(g, objects, candidates, o, k);
        var s := Score(g, objects[id], o);
        if s > score {
          best, score := Some(id), s;
        }
      }
      assert candidates[..|candidates|] == candidates;
    }

    method IngestObservation(o: Observation, freshId: string) returns (id: string)
      requires Ready() && ObservationOk(o) && freshId !in objects
      modifies this, index
      ensures Ready() && Resolved(old(Model())) && Model() == Ingest(g, old(Model()), o, freshId)
      ensures id == (if MergeTarget(g, old(Model()), o).Some? then MergeTarget(g, old(Model()), o).value else freshId)
    {
      ObserveKeeps(g, Model(), o, freshId);
      TargetIsActive(g, Model(), o);
      var best, score := FindBestMatch(o);
      if best.Some? && score >= g.minScore {
        id := best.value;
        MergeObservation(id, o);
      } else {
        id := freshId;
        CreateHazard(o, id);
      }
    }

    method CreateHazard(o: Observation, id: string)
      requires HazardIndex.Valid(index.Model()) && index.size == CELL_SIZE
      modifies this, index
      ensures Model() == Create(old(Model()), o, id)
    {
      objects := objects[id := Fresh(o)];
      active := active + [id];
      history := history[id := [o]];
      index.Insert(id, o.position);
    }

    method MergeObservation(id: string, o: Observation)
      requires HazardIndex.Valid(index.Model()) && index.size == CELL_SIZE && id in objects
      modifies this, index
      ensures Model() == Merge(g, old(Model()), id, o)
    {
      history := history[id := (if id in history then history[id] else []) + [o]];
      var h := MergeInto(g, objects[id], o);
      objects := objects[id := h];
      index.Insert(id, h.position);
    }

    /** Moves an expired hazard to the archive. */
    method ArchiveHazard(id: string)
      requires HazardIndex.Valid(index.Model())
      modifies this`active, this`archive, index
      ensures HazardIndex.Valid(index.Model()) && Model() == Archive(old(Model()), id)
    {
      index.RemoveFromGrid(id);
      if id in active {
        archive := archive + {id};
      }
      active := Without(active, id);
    }

    /** One hazard's share of `apply_negative_evidence`. */
    method ContradictHazard(id: string)
      requires HazardIndex.Valid(index.Model()) && index.size == CELL_SIZE && id in objects
      modifies this`objects, this`active, this`archive, index
      ensures HazardIndex.Valid(index.Model()) && Model() == Contradict(old(Model()), id)
    {
      var h := objects[id];
      var reduction := 0.2 * h.confidence;
      h := h.(contradictions := h.contradictions + 1, confidence := MaxReal(0.0, h.confidence - reduction));
      if h.confidence < EXPIRE_THRESHOLD {
        objects := objects[id := h.(state := Expired)];
        ArchiveHazard(id);
      } else if h.confidence < STALE_THRESHOLD {
        objects := objects[id := h.(state := Stale)];
        index.Insert(id, h.position);
      } else {
        objects := objects[id := h];
        index.Insert(id, h.position);
      }
    }

    /** The loop of `apply_negative_evidence`. */
    method ContradictEach(ids: seq<string>)
      requires HazardIndex.Valid(index.Model()) && index.size == CELL_SIZE && forall id :: id in ids ==> id in objects
      modifies this`objects, this`active, this`archive, index
      ensures Model() == ContradictAll(old(Model()), ids)
    {
      ghost var s := Model();
      assert ids[..0] == [];
      for k := 0 to |ids|
        invariant HazardIndex.Valid(index.Model()) && Model() == ContradictAll(s, ids[..k])
      {
        TakeLast(ids, k);
        ContradictAllKeepsKeys(s, ids[..k]);
        assert ids[k] in s.objects.Keys;
        ContradictHazard(ids[k]);
      }
      assert ids[..|ids|] == ids;
    }

    method ApplyNegativeEvidence(p: Position, t: HazardType, radius: Option<real>) returns (affected: seq<string>)
      requires Ready()
      modifies this, index
      ensures Ready() && Model() == Contradiction(g, old(Model()), p, t, radius)
      ensures affected == HazardIndex.Nearby(old(index.Model()), old(objects), g.metric, CELL_SIZE, p,
                                             SearchRadius(g, radius), Some(t))
    {
      var r := SearchRadius(g, radius);
      DenyKeeps(g, Model(), p, t, radius);
      ConsistentResolves(Model());
      NearbyResolves(Model(), g, p, r, Some(t));
      affected := index.QueryNearby(objects, g.metric, p, r, Some(t));
      ContradictEach(affected);
    }

    /** The second loop of the sweep: removes the expired hazards from the store and the index. */
    method ArchiveEach(ids: seq<string>)
      requires HazardIndex.Valid(index.Model())
      modifies this`active, this`archive, index
      ensures Model() == ArchiveAll(old(Model()), ids)
    {
      ghost var s := Model();
      assert ids[..0] == [];
      for k := 0 to |ids|
        invariant HazardIndex.Valid(index.Model()) && Model() == ArchiveAll(s, ids[..k])
      {
        TakeLast(ids, k);
        ArchiveHazard(ids[k]);
      }
      assert ids[..|ids|] == ids;
    }

    /** `HazardLifecycleManager.sweep`; returns the hazards that changed. */
    method SweepHazards(now: real) returns (changed: seq<string>)
      requires Ready()
      modifies this, index
      ensures Ready() && Model() == Sweep(g, old(Model()), now)
      ensures changed == Only(old(active), Changing(g, old(Model()), now))
    {
      SweepKeeps(g, Model(), now);
      var toRemove;
      ghost var s := Model();
      changed, toRemove := DecayAll(now);
      assert s.active[..|s.active|] == s.active;
      ArchiveEach(toRemove);
    }

    /** One hazard of the sweep, unless it has expired already: whether it changes and whether it must go. */
    method DecayOne(id: string, now: real) returns (changes: bool, expires: bool)
      requires id in objects
      modifies this`objects
      ensures objects == old(objects)[id := Swept(g, old(objects)[id], now)]
      ensures changes == (!old(objects)[id].state.Expired? && SweepChanges(g, old(objects)[id], now))
      ensures expires == (!old(objects)[id].state.Expired? && SweptState(g, old(objects)[id], now).Expired?)
    {
      var hazard := objects[id];
      if hazard.state.Expired? {
        return false, false;
      }
      var state := SweptState(g, hazard, now);
      changes := SweepChanges(g, hazard, now);
      if changes {
        objects := objects[id := hazard.(confidence := MaxReal(0.0, Decayed(g, hazard, now)), state := state)];
      }
      expires := state.Expired?;
    }

    /** The first loop of the sweep: decays every active hazard and lists those to remove. */
    method DecayAll(now: real) returns (changed: seq<string>, toRemove: seq<string>)
      requires Ready()
      modifies this`objects
      ensures objects == SweptObjects(g, old(Model()), now, |active|)
      ensures changed == Only(active, Changing(g, old(Model()), now))
        && toRemove == Only(active, Expiring(g, old(Model()), now))
    {
      ghost var s := Model();
      changed, toRemove := [], [];
      assert objects == SweptObjects(g, s, now, 0);
      for k := 0 to |active|
        invariant objects == SweptObjects(g, s, now, k)
        invariant changed == Only(active[..k], Changing(g, s, now))
          && toRemove == Only(active[..k], Expiring(g, s, now))
      {
        var id := active[k];
        assert id in s.active && id in s.objects;
        SweptOneMore(g, s, now, k);
        OnlySnoc(active, Changing(g, s, now), k);
        OnlySnoc(active, Expiring(g, s, now), k);
        var changes, expires := DecayOne(id, now);
        if changes {
          changed := changed + [id];
        }
        if expires {
          toRemove := toRemove + [id];
        }
      }
      assert active[..|active|] == active;
    }
  }
}
