/** When an observation is taken for a known hazard: how the association score answers to distance, time, type and
    source, and which reports are merged. */
module HazardMatching {
  import opened Basics
  import opened Hazards
  import HazardIndex
  import opened HazardFusion

  function Gap(h: Hazard, o: Observation): real {
    AbsReal(o.observedAt - h.lastSeen)
  }

  // ---------------------------------------------------------------- the score

  /** The share of the time factor that is left after a gap. */
  lemma TimeFactorIs(gap: real)
    requires gap >= 0.0
    ensures gap <= 7200.0 ==> TimeFactor(gap) * 7200.0 == 7200.0 - gap
    ensures gap >= 7200.0 ==> TimeFactor(gap) == 0.0
  {
  }

  lemma TimeFactorFalls(gap: real, later: real)
    requires 0.0 <= gap <= later
    ensures 0.0 <= TimeFactor(later) <= TimeFactor(gap) <= 1.0
  {
    TimeFactorIs(gap);
    TimeFactorIs(later);
  }

  function Nearness(d: real, radius: real): real
    requires radius > 0.0
  {
    1.0 - d / radius
  }

  lemma NearnessFalls(d: real, further: real, radius: real)
    requires radius > 0.0 && 0.0 <= d <= further <= radius
    ensures 0.0 <= Nearness(further, radius) <= Nearness(d, radius) <= 1.0
  {
    assert d / radius * radius == d && further / radius * radius == further;
  }

  function Weighed(near: real, kind: real, time: real, trust: real): real {
    near * kind * time * trust
  }

  lemma WeighedFalls(near: real, kind: real, time: real, trust: real, near': real, time': real)
    requires 0.0 <= near' <= near <= 1.0 && 0.0 <= time' <= time <= 1.0 && 0.0 <= kind <= 1.0 && 0.0 <= trust <= 1.0
    ensures Weighed(near', kind, time', trust) <= Weighed(near, kind, time, trust)
  {
    var a', a := near' * kind, near * kind;
    TimesAtMost(near', near, kind, kind, a', a);
    var b', b := a' * time', a * time;
    TimesAtMost(a', a, time', time, b', b);
    TimesAtMost(b', b, trust, trust, b' * trust, b * trust);
  }

  lemma TimesAtMost(x: real, y: real, u: real, v: real, small: real, large: real)
    requires 0.0 <= x <= y && 0.0 <= u <= v && small == x * u && large == y * v
    ensures 0.0 <= small <= large
  {
    NotNegative(x, u);
    NotNegative(y - x, u);
    NotNegative(y, v - u);
    assert large - small == (y - x) * u + y * (v - u);
  }

  lemma NotNegative(x: real, u: real)
    requires 0.0 <= x && 0.0 <= u
    ensures 0.0 <= x * u
  {
  }

  lemma ScoreIsWeighed(g: Settings, h: Hazard, o: Observation)
    requires g.radius > 0.0
    ensures
      var kind, d := TypeCompatibility(h.hazardType, o.hazardType), g.metric(h.position, o.position);
      Score(g, h, o) ==
      if kind == 0.0 || SegmentsClash(h.roadSegment, o.roadSegment) || d > g.radius then 0.0
      else Weighed(Nearness(d, g.radius), kind, TimeFactor(Gap(h, o)), if o.source !in h.sources then 1.0 else 0.7)
  {
  }

  /** With the distance and the gap of another report of the same kind. */
  lemma WeighedAtMost(g: Settings, d: real, d': real, gap: real, gap': real, kind: real, trust: real)
    requires g.radius > 0.0 && 0.0 <= d <= d' <= g.radius && 0.0 <= gap <= gap'
    requires 0.0 <= kind <= 1.0 && 0.0 <= trust <= 1.0
    ensures Weighed(Nearness(d', g.radius), kind, TimeFactor(gap'), trust)
            <= Weighed(Nearness(d, g.radius), kind, TimeFactor(gap), trust)
  {
    NearnessFalls(d, d', g.radius);
    TimeFactorFalls(gap, gap');
    WeighedFalls(Nearness(d, g.radius), kind, TimeFactor(gap), trust, Nearness(d', g.radius), TimeFactor(gap'));
  }

  /** The same report from further away, or with a longer gap, never scores higher. */
  lemma ScoreNeverRises(g: Settings, h: Hazard, o: Observation, h': Hazard, o': Observation)
    requires SettingsOk(g) && g.radius > 0.0
    requires h' == h.(position := h'.position, lastSeen := h'.lastSeen)
    requires o' == o.(position := o'.position, observedAt := o'.observedAt)
    requires g.metric(h.position, o.position) <= g.metric(h'.position, o'.position) && Gap(h, o) <= Gap(h', o')
    ensures Score(g, h', o') <= Score(g, h, o)
  {
    var d, d' := g.metric(h.position, o.position), g.metric(h'.position, o'.position);
    ScoreIsWeighed(g, h, o);
    ScoreIsWeighed(g, h', o');
    if d' <= g.radius {
      WeighedAtMost(g, d, d', Gap(h, o), Gap(h', o'), TypeCompatibility(h.hazardType, o.hazardType),
                    if o.source !in h.sources then 1.0 else 0.7);
    } else {
      ScoreInUnit(g, h, o);
    }
  }

  /** A report on the spot of the same type, without a clash of segments. */
  predicate OnTheSpot(g: Settings, h: Hazard, o: Observation) {
    o.hazardType == h.hazardType && !SegmentsClash(h.roadSegment, o.roadSegment)
    && g.metric(h.position, o.position) == 0.0
  }

  /** On the spot the score falls evenly to zero over two hours; a known source counts for seven tenths. */
  lemma ScoreOnTheSpot(g: Settings, h: Hazard, o: Observation)
    requires g.radius > 0.0 && OnTheSpot(g, h, o)
    ensures
      var trust := if o.source in h.sources then 0.7 else 1.0;
      Score(g, h, o) == if Gap(h, o) >= 7200.0 then 0.0 else (1.0 - Gap(h, o) / 7200.0) * trust
  {
    assert 0.0 / g.radius == 0.0;
  }

  /** A simultaneous report of the same type scores what is left of the radius. */
  lemma ScoreOfDistance(g: Settings, h: Hazard, o: Observation)
    requires g.radius > 0.0 && o.hazardType == h.hazardType && !SegmentsClash(h.roadSegment, o.roadSegment)
    requires o.observedAt == h.lastSeen && o.source !in h.sources && 0.0 <= g.metric(h.position, o.position) <= g.radius
    ensures Score(g, h, o) * g.radius == g.radius - g.metric(h.position, o.position)
  {
  }

  /** Potholes and bumps pass for each other at six tenths; no other two types do. */
  lemma ScoreOfTypes(g: Settings, h: Hazard, o: Observation)
    requires g.radius > 0.0 && o.hazardType != h.hazardType
    ensures
      var same := Score(g, h, o.(hazardType := h.hazardType));
      Score(g, h, o) == if {h.hazardType, o.hazardType} == {Pothole, Bump} then 0.6 * same else 0.0
  {
    var x := 1.0 - g.metric(h.position, o.position) / g.radius;
    var t := TimeFactor(Gap(h, o));
    var i := if o.source !in h.sources then 1.0 else 0.7;
    if {h.hazardType, o.hazardType} == {Pothole, Bump} {
      assert h.hazardType in {Pothole, Bump} && o.hazardType in {Pothole, Bump};
      assert x * 0.6 * t * i == 0.6 * (x * 1.0 * t * i);
    } else {
      assert !(h.hazardType.Pothole? && o.hazardType.Bump?) && !(h.hazardType.Bump? && o.hazardType.Pothole?);
    }
  }

  // ---------------------------------------------------------------- what is merged

  /** A fresh enough report on the spot from a new source. */
  predicate FreshOnTheSpot(g: Settings, h: Hazard, o: Observation) {
    OnTheSpot(g, h, o) && o.source !in h.sources && Gap(h, o) < 7200.0 && Gap(h, o) <= (1.0 - g.minScore) * 7200.0
  }

  /** Reports on the spot reach the minimum score just when they are fresh enough. */
  lemma SpotReachesMinimumIff(g: Settings, h: Hazard, o: Observation)
    requires g.radius > 0.0 && OnTheSpot(g, h, o) && o.source !in h.sources
    ensures Score(g, h, o) > 0.0 && Score(g, h, o) >= g.minScore <==> FreshOnTheSpot(g, h, o)
  {
    ScoreOnTheSpot(g, h, o);
    var s := Score(g, h, o);
    if Gap(h, o) < 7200.0 {
      assert s * 7200.0 == 7200.0 - Gap(h, o);
    }
  }

  /** Where the window covers its surroundings such a report never starts a new hazard: it is merged into a best-scoring
      one. */
  lemma FreshReportIsMerged(g: Settings, s: Store, o: Observation, id: string)
    requires SettingsOk(g) && g.radius > 0.0 && Valid(g, s) && id in s.active
    requires HazardIndex.Covered(g.metric, CELL_SIZE, o.position, g.radius)
    requires g.metric(o.position, s.objects[id].position) == g.metric(s.objects[id].position, o.position)
    requires FreshOnTheSpot(g, s.objects[id], o)
    ensures Resolved(s) && MergeTarget(g, s, o).Some?
    ensures MergeTarget(g, s, o).value in s.objects
    ensures Score(g, s.objects[MergeTarget(g, s, o).value], o) >= Score(g, s.objects[id], o)
  {
    SpotReachesMinimumIff(g, s.objects[id], o);
    MergesIntoBestOfAll(g, s, o, id);
  }

  /** Next to a single active hazard a report on the spot from a new source is merged if and only if it is fresh
      enough. */
  lemma LoneHazardIsMergedIff(g: Settings, s: Store, o: Observation, id: string)
    requires SettingsOk(g) && g.radius > 0.0 && Valid(g, s) && s.active == [id]
    requires HazardIndex.Covered(g.metric, CELL_SIZE, o.position, g.radius)
    requires g.metric(o.position, s.objects[id].position) == g.metric(s.objects[id].position, o.position)
    requires OnTheSpot(g, s.objects[id], o) && o.source !in s.objects[id].sources
    ensures Resolved(s) && (MergeTarget(g, s, o) == Some(id) <==> FreshOnTheSpot(g, s.objects[id], o))
    ensures MergeTarget(g, s, o) != Some(id) ==> MergeTarget(g, s, o) == None
  {
    SpotReachesMinimumIff(g, s.objects[id], o);
    MergesIntoBestOfAll(g, s, o, id);
    TargetIsActive(g, s, o);
    TargetScoresEnough(g, s, o);
  }

  lemma TargetScoresEnough(g: Settings, s: Store, o: Observation)
    requires g.radius != 0.0 && Consistent(s)
    ensures Resolved(s)
    ensures MergeTarget(g, s, o).Some? ==>
              MergeTarget(g, s, o).value in s.objects
              && Score(g, s.objects[MergeTarget(g, s, o).value], o) >= g.minScore
  {
    TargetIsActive(g, s, o);
    NearbyResolves(s, g, o.position, g.radius, None);
    BestIsBest(g, s.objects, Candidates(g, s, o), o);
  }

  /** The last source that verification needs verifies a candidate, and no earlier one does. */
  lemma MergeVerifiesIff(g: Settings, s: Store, o: Observation, id: string)
    requires id in s.objects && s.objects[id].state.Candidate?
    ensures
      var known := |s.objects[id].sources| + (if o.source in s.objects[id].sources then 0 else 1);
      var state := Merge(g, s, id, o).objects[id].state;
      (state.Verified? <==> known >= g.verification) && (state.Verified? || state.Candidate?)
  {
  }

  // ---------------------------------------------------------------- decay and negative evidence

  /** Past the time to live of its type. */
  predicate Outlived(h: Hazard, now: real) {
    now > h.firstSeen + Ttl(h.hazardType) as real
  }

  /** The confidence left without observations since the hazard was last seen. */
  function Left(g: Settings, h: Hazard, now: real): real {
    if now > h.lastSeen then h.confidence * g.decay(now - h.lastSeen) else h.confidence
  }

  /** Expired past its time to live or below a tenth, stale below three tenths, and otherwise as it was. */
  function Aged(g: Settings, h: Hazard, now: real): HazardState {
    if Outlived(h, now) || Left(g, h, now) < 0.1 then Expired
    else if Left(g, h, now) < 0.3 then Stale
    else h.state
  }

  lemma SweptIs(g: Settings, h: Hazard, now: real)
    requires SettingsOk(g) && 0.0 <= h.confidence && !h.state.Expired?
    ensures SweptState(g, h, now) == Aged(g, h, now) && Swept(g, h, now).state == Aged(g, h, now)
    ensures Left(g, h, now) >= 0.0 && AbsReal(Swept(g, h, now).confidence - Left(g, h, now)) <= 0.000001
  {
    LeftIs(g, h, now);
  }

  lemma LeftIs(g: Settings, h: Hazard, now: real)
    requires SettingsOk(g) && 0.0 <= h.confidence
    ensures Decayed(g, h, now) == Left(g, h, now) && Left(g, h, now) >= 0.0
  {
    if now > h.lastSeen {
      assert 0.0 <= g.decay(now - h.lastSeen) <= 1.0;
    }
  }

  /** A sweep ages every active hazard, to within a millionth of confidence, and archives exactly those that expire. */
  lemma SweepExpiresIff(g: Settings, s: Store, now: real, id: string)
    requires SettingsOk(g) && Valid(g, s) && id in s.active
    ensures
      var (h, r) := (s.objects[id], Sweep(g, s, now));
      && id in r.objects && r.objects[id].state == Aged(g, h, now)
      && (id in r.archive <==> Aged(g, h, now).Expired?) && (id in r.active <==> !Aged(g, h, now).Expired?)
      && AbsReal(r.objects[id].confidence - Left(g, h, now)) <= 0.000001
  {
    SweepIs(g, s, now);
    assert HazardOk(g, s.objects[id]) && !s.objects[id].state.Expired?;
    SweptIs(g, s.objects[id], now);
  }

  /** Negative evidence takes a fifth of the confidence, and with it the state. */
  lemma DenialTakesAFifth(h: Hazard)
    requires h.confidence >= 0.0
    ensures
      var r := Contradicted(h);
      && r == h.(confidence := 0.8 * h.confidence, contradictions := h.contradictions + 1, state := r.state)
      && r.state == if 0.8 * h.confidence < 0.1 then Expired else if 0.8 * h.confidence < 0.3 then Stale else h.state
  {
  }

  lemma ContradictLeavesOthers(s: Store, id: string, x: string)
    requires id in s.objects && x in s.objects
    ensures
      var r := Contradict(s, id);
      x in r.objects && r.objects[x] == if x == id then Contradicted(s.objects[id]) else s.objects[x]
  {
  }

  lemma {:induction false} ContradictAllAt(s: Store, ids: seq<string>, x: string)
    requires Distinct(ids) && x in s.objects && forall id :: id in ids ==> id in s.objects
    ensures
      var r := ContradictAll(s, ids);
      && (forall id :: id in s.objects ==> id in r.objects)
      && r.objects[x] == if x in ids then Contradicted(s.objects[x]) else s.objects[x]
  {
    if ids != [] {
      var n := |ids| - 1;
      assert ids == ids[..n] + [ids[n]] && ids[n] in ids && ids[n] !in ids[..n];
      ContradictAllAt(s, ids[..n], x);
      ContradictAllAt(s, ids[..n], ids[n]);
      var before := ContradictAll(s, ids[..n]);
      ContradictLeavesOthers(before, ids[n], x);
      forall id | id in s.objects
        ensures id in ContradictAll(s, ids).objects
      {
        ContradictLeavesOthers(before, ids[n], id);
      }
    }
  }

  /** Negative evidence about a type at a place reaches exactly the hazards of that type that the index finds there. */
  lemma DenialReaches(g: Settings, s: Store, p: Position, t: HazardType, radius: Option<real>, x: string)
    requires Valid(g, s) && x in s.objects
    ensures
      var found := HazardIndex.Nearby(s.index, s.objects, g.metric, CELL_SIZE, p,
                                      if radius == None || radius == Some(0.0) then g.radius else radius.value,
                                      Some(t));
      var r := Contradiction(g, s, p, t, radius);
      x in r.objects && r.objects[x] == if x in found then Contradicted(s.objects[x]) else s.objects[x]
  {
    ConsistentResolves(s);
    NearbyResolves(s, g, p, SearchRadius(g, radius), Some(t));
    ContradictAllAt(s, HazardIndex.Nearby(s.index, s.objects, g.metric, CELL_SIZE, p, SearchRadius(g, radius), Some(t)),
                    x);
  }
}
