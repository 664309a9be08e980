/** A fused hazard as a summary of its observation history. */
module HazardHistory {
  import opened Basics
  import opened Hazards
  import HazardIndex
  import opened HazardFusion

  function Latitude(o: Observation): real { o.position.lat }

  function Longitude(o: Observation): real { o.position.lon }

  function Severity(o: Observation): real { o.severity }

  function Total(of: Observation -> real, history: seq<Observation>): real {
    if history == [] then 0.0 else Total(of, history[..|history| - 1]) + of(history[|history| - 1])
  }

  function Mean(of: Observation -> real, history: seq<Observation>): real
    requires history != []
  {
    Total(of, history) / |history| as real
  }

  ghost predicate SourcesAre(sources: seq<string>, history: seq<Observation>) {
    Distinct(sources) && forall x {:trigger HasSource(history, x)} {:trigger x in sources} :: x in sources <==>
        HasSource(history, x)
  }

  ghost predicate HasSource(history: seq<Observation>, x: string) {
    exists i :: 0 <= i < |history| && history[i].source == x
  }

  /** No two observations carry different road segments, and the hazard carries the one they share. */
  ghost predicate SegmentIs(segment: Option<string>, history: seq<Observation>) {
    && (forall i :: 0 <= i < |history| && history[i].roadSegment.Some? ==> segment == history[i].roadSegment)
    && (segment.Some? ==> exists i :: 0 <= i < |history| && history[i].roadSegment == segment)
  }

  /** First and latest observation times. */
  ghost predicate SpanIs(first: real, latest: real, history: seq<Observation>)
    requires history != []
  {
    && first == history[0].observedAt
    && (forall i :: 0 <= i < |history| ==> history[i].observedAt <= latest)
    && exists i :: 0 <= i < |history| && history[i].observedAt == latest
  }

  ghost predicate Averages(h: Hazard, history: seq<Observation>)
    requires history != []
  {
    && h.position.lat == Mean(Latitude, history)
    && h.position.lon == Mean(Longitude, history)
    && h.severity == Mean(Severity, history)
  }

  ghost predicate Summarises(h: Hazard, history: seq<Observation>) {
    && history != []
    && h.evidence == |history|
    && Averages(h, history)
    && SourcesAre(h.sources, history)
    && SegmentIs(h.roadSegment, history)
    && SpanIs(h.firstSeen, h.lastSeen, history)
    && h.hazardType == history[0].hazardType
    && forall i :: 0 <= i < |history| ==> TypeCompatibility(h.hazardType, history[i].hazardType) > 0.0
  }

  /** Each hazard ever created summarises its own history. */
  ghost predicate AllSummarised(s: Store) {
    && s.history.Keys == s.objects.Keys
    && forall id {:trigger s.objects[id]} :: id in s.objects ==> Summarises(s.objects[id], s.history[id])
  }

  // ---------------------------------------------------------------- one observation

  lemma FreshSummarises(o: Observation)
    ensures Summarises(Fresh(o), [o])
  {
    SingleTotal(Latitude, o);
    SingleTotal(Longitude, o);
    SingleTotal(Severity, o);
    assert [o][0] == o;
  }

  lemma SingleTotal(of: Observation -> real, o: Observation)
    ensures Mean(of, [o]) == of(o)
  {
    assert [o][..0] == [];
    assert Total(of, [o]) == of(o);
  }

  /** Weighting the newcomer at 1/(n+1) turns the mean of n into the mean of n+1. */
  lemma BlendOfMean(mean: real, total: real, n: nat, x: real)
    requires n > 0 && mean == total / n as real
    ensures Blend(mean, x, n) == (total + x) / (n + 1) as real
  {
    var m := (n + 1) as real;
    var w := 1.0 / m;
    assert m * w == 1.0;
    assert mean * n as real == total;
    assert (mean * (1.0 - w) + x * w) * m == total + x by {
      assert mean * (1.0 - w) * m == mean * (m - w * m) == mean * n as real;
      assert x * w * m == x;
    }
    Quotient(Blend(mean, x, n), m, total + x);
  }

  lemma Quotient(q: real, m: real, total: real)
    requires m > 0.0 && q * m == total
    ensures q == total / m
  {
  }

  lemma MeanSnoc(of: Observation -> real, history: seq<Observation>, o: Observation)
    requires history != []
    ensures Mean(of, history + [o]) == Blend(Mean(of, history), of(o), |history|)
  {
    assert (history + [o])[..|history|] == history;
    BlendOfMean(Mean(of, history), Total(of, history), |history|, of(o));
  }

  lemma MergedAverages(g: Settings, h: Hazard, history: seq<Observation>, o: Observation)
    requires history != [] && Averages(h, history) && h.evidence == |history|
    ensures Averages(Merged(g, h, o), history + [o])
  {
    MeanSnoc(Latitude, history, o);
    MeanSnoc(Longitude, history, o);
    MeanSnoc(Severity, history, o);
  }

  lemma SourcesSnoc(sources: seq<string>, history: seq<Observation>, o: Observation)
    requires SourcesAre(sources, history)
    ensures SourcesAre(if o.source in sources then sources else sources + [o.source], history + [o])
  {
    var longer := history + [o];
    forall x
      ensures HasSource(longer, x) <==> HasSource(history, x) || x == o.source
    {
      if i :| 0 <= i < |history| && history[i].source == x {
        assert longer[i].source == x;
      }
      assert longer[|history|] == o;
    }
  }

  lemma SegmentSnoc(segment: Option<string>, history: seq<Observation>, o: Observation)
    requires SegmentIs(segment, history) && !SegmentsClash(segment, o.roadSegment)
    ensures SegmentIs(if segment.None? then o.roadSegment else segment, history + [o])
  {
    var longer := history + [o];
    assert longer[|history|] == o;
    if segment.Some? {
      var i :| 0 <= i < |history| && history[i].roadSegment == segment;
      assert longer[i].roadSegment == segment;
    }
  }

  lemma SpanSnoc(first: real, latest: real, history: seq<Observation>, o: Observation)
    requires history != [] && SpanIs(first, latest, history)
    ensures SpanIs(first, if o.observedAt > latest then o.observedAt else latest, history + [o])
  {
    var longer := history + [o];
    assert longer[|history|] == o && longer[0] == history[0];
    var i :| 0 <= i < |history| && history[i].observedAt == latest;
    assert longer[i].observedAt == latest;
  }

  lemma MergedSummarises(g: Settings, h: Hazard, history: seq<Observation>, o: Observation)
    requires SettingsOk(g) && Summarises(h, history) && Score(g, h, o) > 0.0
    ensures Summarises(Merged(g, h, o), history + [o])
  {
    ScoreInUnit(g, h, o);
    MergedAverages(g, h, history, o);
    SourcesSnoc(h.sources, history, o);
    SegmentSnoc(h.roadSegment, history, o);
    SpanSnoc(h.firstSeen, h.lastSeen, history, o);
    assert (history + [o])[0] == history[0];
  }

  /** Decay, contradiction and expiry change only confidence, state and the contradiction count. */
  ghost predicate SameEvidence(h: Hazard, h': Hazard) {
    h' == h.(confidence := h'.confidence, state := h'.state, contradictions := h'.contradictions)
  }

  lemma SameEvidenceSummarises(h: Hazard, h': Hazard, history: seq<Observation>)
    requires Summarises(h, history) && SameEvidence(h, h')
    ensures Summarises(h', history)
  {
  }

  // ---------------------------------------------------------------- steps

  lemma ObserveSummarises(g: Settings, s: Store, o: Observation, id: string)
    requires SettingsOk(g) && Valid(g, s) && AllSummarised(s) && id !in s.objects
    ensures Resolved(s) && AllSummarised(Ingest(g, s, o, id))
  {
    TargetIsActive(g, s, o);
    IngestIs(g, s, o, id);
    FreshSummarises(o);
    var target := MergeTarget(g, s, o);
    if target.Some? {
      MergedSummarises(g, s.objects[target.value], s.history[target.value], o);
      PutSummarises(s, Merge(g, s, target.value, o), target.value);
    } else {
      PutSummarises(s, Create(s, o, id), id);
    }
  }

  lemma PutSummarises(s: Store, s': Store, id: string)
    requires AllSummarised(s) && id in s'.objects && id in s'.history && Summarises(s'.objects[id], s'.history[id])
    requires s'.objects == s.objects[id := s'.objects[id]] && s'.history == s.history[id := s'.history[id]]
    ensures AllSummarised(s')
  {
  }

  /** Same hazards, same histories, same evidence. */
  ghost predicate EvidenceUntouched(s: Store, s': Store) {
    && s'.history == s.history && s'.objects.Keys == s.objects.Keys
    && forall id {:trigger s'.objects[id]} :: id in s.objects ==> SameEvidence(s.objects[id], s'.objects[id])
  }

  lemma UntouchedSummarises(s: Store, s': Store)
    requires AllSummarised(s) && EvidenceUntouched(s, s')
    ensures AllSummarised(s')
  {
    forall id | id in s'.objects
      ensures Summarises(s'.objects[id], s'.history[id])
    {
      SameEvidenceSummarises(s.objects[id], s'.objects[id], s.history[id]);
    }
  }

  lemma UntouchedTransitively(s: Store, s': Store, s'': Store)
    requires EvidenceUntouched(s, s') && EvidenceUntouched(s', s'')
    ensures EvidenceUntouched(s, s'')
  {
    forall id | id in s.objects
      ensures SameEvidence(s.objects[id], s''.objects[id])
    {
      assert SameEvidence(s.objects[id], s'.objects[id]);
    }
  }

  lemma {:induction false} ContradictAllUntouched(s: Store, ids: seq<string>)
    ensures EvidenceUntouched(s, ContradictAll(s, ids))
  {
    if ids != [] {
      var n := |ids| - 1;
      ContradictAllUntouched(s, ids[..n]);
      UntouchedTransitively(s, ContradictAll(s, ids[..n]), ContradictAll(s, ids));
    }
  }

  lemma SweepUntouched(g: Settings, s: Store, now: real)
    requires Valid(g, s)
    ensures EvidenceUntouched(s, Sweep(g, s, now))
  {
    SweepIs(g, s, now);
    SweepKeepsHistory(g, s, now);
  }

  lemma SweepKeepsHistory(g: Settings, s: Store, now: real)
    requires Valid(g, s)
    ensures Sweep(g, s, now).history == s.history
  {
    OnlyMembers(s.active, Expiring(g, s, now));
    var swept := map id | id in s.objects :: if id in s.active then Swept(g, s.objects[id], now) else s.objects[id];
    ArchiveAllIs(s.(objects := swept), Only(s.active, Expiring(g, s, now)));
  }

  lemma StepSummarises(g: Settings, s: Store, op: Op)
    requires SettingsOk(g) && Valid(g, s) && AllSummarised(s) && Legal(s, op)
    ensures Resolved(s) && AllSummarised(Step(g, s, op))
  {
    ConsistentResolves(s);
    match op
    case Observe(o, id) => ObserveSummarises(g, s, o, id);
    case Deny(p, t, radius) =>
      var r := if radius.Some? && radius.value != 0.0 then radius.value else g.radius;
      var ids := HazardIndex.Nearby(s.index, s.objects, g.metric, CELL_SIZE, p, r, Some(t));
      ContradictAllUntouched(s, ids);
      UntouchedSummarises(s, ContradictAll(s, ids));
    case SweepAt(now) =>
      SweepUntouched(g, s, now);
      UntouchedSummarises(s, Sweep(g, s, now));
  }

  lemma {:induction false} RunSummarises(g: Settings, s: Store, ops: seq<Op>)
    requires SettingsOk(g) && Valid(g, s) && AllSummarised(s) && LegalRun(g, s, ops)
    ensures AllSummarised(Run(g, s, ops))
    decreases |ops|
  {
    if ops != [] {
      StepKeeps(g, s, ops[0]);
      StepSummarises(g, s, ops[0]);
      RunSummarises(g, Step(g, s, ops[0]), ops[1..]);
    }
  }

  /** Over any run every hazard, active or archived, is an exact summary of its history: position and severity
      are the arithmetic means, the evidence count is the number of observations, the sources are the distinct
      ones, all observations that carry a road segment carry the same one, and all have compatible types. */
  lemma HazardsSummariseTheirHistory(g: Settings, ops: seq<Op>, id: string)
    requires SettingsOk(g) && LegalRun(g, EMPTY_STORE, ops)
    ensures
      var r := Run(g, EMPTY_STORE, ops);
      (id in r.objects <==> id in r.history) && (id in r.objects ==> Summarises(r.objects[id], r.history[id]))
  {
    RunSummarises(g, EMPTY_STORE, ops);
  }
}
