/** The safety detectors' hazard record: evidence integration, lifecycle transitions and time decay. */
module DetectorFusion {
  import opened Basics
  import opened Hazards

  const MIN_CONFIDENCE := 0.01
  const NEGATIVE_FACTOR := 0.25

  /** Weight of a source's n-th report: the first counts in full, later ones share a cap. */
  function SourceWeight(maxWeight: real): nat -> real {
    (n: nat) => if n <= 1 then 1.0 else maxWeight / n as real
  }

  datatype Config = Config(promotion: real, staleAfter: real, weight: nat -> real, decay: real -> real)

  /** What a cap between 0 and 1 gives. */
  ghost predicate WeightsOk(weight: nat -> real) {
    weight(1) == 1.0 && forall n: nat {:trigger weight(n)} :: 0.0 <= weight(n) <= 1.0 && (n > 1 ==> weight(n) <= 0.5)
  }

  /** A cap between 0 and 1 gives such weights. */
  lemma SourceWeightsOk(maxWeight: real)
    requires 0.0 <= maxWeight <= 1.0
    ensures WeightsOk(SourceWeight(maxWeight))
  {
    forall n: nat | n > 1
      ensures 0.0 <= SourceWeight(maxWeight)(n) <= 0.5
    {
      Share(maxWeight, n);
    }
  }

  lemma Share(maxWeight: real, n: nat)
    requires 0.0 <= maxWeight <= 1.0 && n > 1
    ensures 0.0 <= maxWeight / n as real <= 1.0 / n as real <= 0.5
  {
  }

  /** The decay factor over a positive gap lies in [0, 1]; weights come from a cap between 0 and 1. */
  ghost predicate ConfigOk(cfg: Config) {
    && WeightsOk(cfg.weight)
    && forall t: real {:trigger cfg.decay(t)} :: 0.0 < t ==> 0.0 <= cfg.decay(t) <= 1.0
  }

  datatype Report = Report(
    source: string,
    confidence: real,
    severity: real,
    position: Position,
    observedAt: real,
    negative: bool,
    roadSegment: string)

  predicate ReportOk(r: Report) {
    0.0 <= r.confidence <= 1.0
  }

  /** An empty road segment stands for none. */
  datatype Track = Track(
    confidence: real,
    state: HazardState,
    contributions: map<string, nat>,
    evidence: nat,
    sources: seq<string>,
    severity: real,
    position: Position,
    firstSeen: real,
    lastSeen: real,
    ttl: real,
    temporary: bool,
    roadSegment: string)

  function Created(r: Report, ttl: real, temporary: bool): Track {
    Track(Clamp(r.confidence), Candidate, map[r.source := 1], 1, [r.source], Clamp(r.severity), r.position,
          r.observedAt, r.observedAt, ttl, temporary, r.roadSegment)
  }

  // ---------------------------------------------------------------- evidence

  function Count(h: Track, source: string): nat {
    if source in h.contributions then h.contributions[source] else 0
  }

  function Recomputed(base: real, confidence: real, weight: real): real {
    MinReal(1.0, base + confidence * weight * (1.0 - base))
  }

  function Lowered(h: Track, confidence: real): real {
    MaxReal(0.0, h.confidence - (if h.temporary then NEGATIVE_FACTOR * confidence * 2.0
                                 else NEGATIVE_FACTOR * confidence))
  }

  function Shifted(from: Position, to: Position, weight: real): Position {
    var alpha := MinReal(0.3, weight * 0.2);
    Position(from.lat + alpha * (to.lat - from.lat), from.lon + alpha * (to.lon - from.lon))
  }

  function Transition(cfg: Config, confidence: real, state: HazardState): HazardState {
    if confidence < MIN_CONFIDENCE then Expired
    else if state.Expired? then Expired
    else if confidence >= cfg.promotion then Verified
    else if state.Verified? then Stale
    else state
  }

  function Integrated(cfg: Config, h: Track, r: Report): Track {
    var counted := h.(contributions := h.contributions[r.source := Count(h, r.source) + 1]);
    if r.negative then counted.(confidence := Lowered(h, r.confidence))
    else
      var confidence := Recomputed(h.confidence, r.confidence, cfg.weight(Count(h, r.source) + 1));
      counted.(evidence := h.evidence + 1,
               sources := if r.source in h.sources then h.sources else h.sources + [r.source],
               confidence := confidence,
               position := Shifted(h.position, r.position, confidence),
               severity := MinReal(1.0, MaxReal(h.severity, r.severity)),
               lastSeen := r.observedAt,
               roadSegment := if r.roadSegment != "" then r.roadSegment else h.roadSegment)
  }

  function Updated(cfg: Config, h: Track, r: Report): Track {
    var h' := Integrated(cfg, h, r);
    h'.(state := Transition(cfg, h'.confidence, h'.state))
  }

  // ---------------------------------------------------------------- decay

  function Decays(h: Track, now: real): bool {
    now - h.lastSeen > 0.0 && !h.state.Expired?
  }

  function Faded(cfg: Config, h: Track, now: real): real {
    MaxReal(0.0, Weakened(h.confidence, cfg.decay(now - h.lastSeen)))
  }

  /** Age beyond the TTL, or too little confidence left. */
  predicate RunsOut(cfg: Config, h: Track, now: real) {
    now - h.firstSeen > h.ttl || Faded(cfg, h, now) < MIN_CONFIDENCE
  }

  function Decayed(cfg: Config, h: Track, now: real): Track {
    if !Decays(h, now) then h
    else if RunsOut(cfg, h, now) then h.(confidence := 0.0, state := Expired)
    else
      var marked := if now - h.lastSeen >= cfg.staleAfter && !h.state.Stale? then Stale else h.state;
      h.(confidence := Faded(cfg, h, now), state := Transition(cfg, Faded(cfg, h, now), marked))
  }

  // ---------------------------------------------------------------- lifecycle over runs

  datatype Event = Reported(r: Report) | Aged(now: real)

  /** An expired hazard is no longer matched with reports. */
  function Step(cfg: Config, h: Track, e: Event): Track {
    match e
    case Reported(r) => if h.state.Expired? then h else Updated(cfg, h, r)
    case Aged(now) => Decayed(cfg, h, now)
  }

  function Run(cfg: Config, h: Track, events: seq<Event>): Track {
    if events == [] then h else Step(cfg, Run(cfg, h, events[..|events| - 1]), events[|events| - 1])
  }

  predicate EventsOk(events: seq<Event>) {
    forall e :: e in events && e.Reported? ==> ReportOk(e.r)
  }

  /** Confidence is a probability; only confident hazards are verified and only faded ones have expired. */
  ghost predicate Sound(cfg: Config, h: Track) {
    && 0.0 <= h.confidence <= 1.0
    && (h.state.Verified? ==> h.confidence >= cfg.promotion)
    && (h.state.Expired? ==> h.confidence < MIN_CONFIDENCE)
  }

  lemma RecomputedInUnit(base: real, confidence: real, weight: real)
    requires 0.0 <= base <= 1.0 && 0.0 <= confidence <= 1.0 && 0.0 <= weight <= 1.0
    ensures base <= Recomputed(base, confidence, weight) <= 1.0
    ensures Recomputed(base, confidence, weight) == base + confidence * weight * (1.0 - base)
  {
    Shrinks(confidence, weight);
    StepFits(base, confidence * weight, 1.0 - base, confidence * weight * (1.0 - base));
  }

  lemma StepFits(base: real, share: real, rest: real, step: real)
    requires 0.0 <= share <= 1.0 && 0.0 <= rest <= 1.0 && base == 1.0 - rest && step == share * rest
    ensures base <= base + step <= 1.0
  {
    Shrinks(rest, share);
  }

  lemma Shrinks(x: real, factor: real)
    requires 0.0 <= x && 0.0 <= factor <= 1.0
    ensures 0.0 <= factor * x <= x && 0.0 <= x * factor <= x
  {
  }

  lemma UpdatedIsSound(cfg: Config, h: Track, r: Report)
    requires ConfigOk(cfg) && ReportOk(r) && Sound(cfg, h) && !h.state.Expired?
    ensures Sound(cfg, Updated(cfg, h, r))
  {
    RecomputedInUnit(h.confidence, r.confidence, cfg.weight(Count(h, r.source) + 1));
  }

  lemma DecayedIsSound(cfg: Config, h: Track, now: real)
    requires ConfigOk(cfg) && Sound(cfg, h)
    ensures Sound(cfg, Decayed(cfg, h, now)) && Decayed(cfg, h, now).confidence <= h.confidence
  {
    if Decays(h, now) {
      assert 0.0 <= cfg.decay(now - h.lastSeen) <= 1.0;
    }
  }

  /** A hazard never becomes a candidate again, and once expired stays as it is. */
  ghost predicate NeverBack(h: Track, h': Track) {
    && (!h.state.Candidate? ==> !h'.state.Candidate?)
    && (h.state.Expired? ==> h' == h)
  }

  lemma StepNeverBack(cfg: Config, h: Track, e: Event)
    ensures NeverBack(h, Step(cfg, h, e))
  {
  }

  /** Over any run of reports and decays: confidence stays in [0, 1]; a verified hazard has at least the promotion
      confidence; nothing becomes a candidate again; an expired hazard never changes. */
  lemma {:induction false} LifecycleOverRuns(cfg: Config, h: Track, events: seq<Event>)
    requires ConfigOk(cfg) && Sound(cfg, h) && EventsOk(events)
    ensures Sound(cfg, Run(cfg, h, events)) && NeverBack(h, Run(cfg, h, events))
  {
    if events != [] {
      var n := |events| - 1;
      var before := Run(cfg, h, events[..n]);
      LifecycleOverRuns(cfg, h, events[..n]);
      StepNeverBack(cfg, before, events[n]);
      match events[n]
      case Reported(r) =>
        assert events[n] in events;
        if !before.state.Expired? {
          UpdatedIsSound(cfg, before, r);
        }
      case Aged(now) => DecayedIsSound(cfg, before, now);
    }
  }

  /** So it is for every hazard from its first report on, under any cap between 0 and 1. */
  lemma LifecycleFromFirstReport(cfg: Config, maxWeight: real, r: Report, ttl: real, temporary: bool,
                                 events: seq<Event>)
    requires 0.0 <= maxWeight <= 1.0 && cfg.weight == SourceWeight(maxWeight) && EventsOk(events)
    requires forall t: real {:trigger cfg.decay(t)} :: 0.0 < t ==> 0.0 <= cfg.decay(t) <= 1.0
    ensures Sound(cfg, Run(cfg, Created(r, ttl, temporary), events))
    ensures NeverBack(Created(r, ttl, temporary), Run(cfg, Created(r, ttl, temporary), events))
  {
    SourceWeightsOk(maxWeight);
    LifecycleOverRuns(cfg, Created(r, ttl, temporary), events);
  }

  /** After the silence threshold a live hazard is stale or expired, as documented, if and only if its faded
      confidence is below the promotion confidence or it runs out: otherwise the transition that follows turns
      the stale mark into a verification. */
  lemma SilenceMakesStaleIff(cfg: Config, h: Track, now: real)
    requires Decays(h, now) && now - h.lastSeen >= cfg.staleAfter
    ensures Decayed(cfg, h, now).state.Stale? || Decayed(cfg, h, now).state.Expired? <==>
              Faded(cfg, h, now) < cfg.promotion || RunsOut(cfg, h, now)
    ensures !(Faded(cfg, h, now) < cfg.promotion || RunsOut(cfg, h, now)) ==> Decayed(cfg, h, now).state.Verified?
  {
  }

  /** After this gap of silence every sound live hazard ends stale or expired, whatever its confidence. */
  ghost predicate SilenceEnds(cfg: Config, gap: real) {
    forall h: Track, now: real {:trigger Decayed(cfg, h, now)} ::
      Sound(cfg, h) && Decays(h, now) && now - h.lastSeen == gap ==>
      Decayed(cfg, h, now).state.Stale? || Decayed(cfg, h, now).state.Expired?
  }

  /** The documented ending holds of all hazards exactly when a gap fades even full confidence below the promotion
      confidence or below the least one. */
  lemma SilenceEndsIff(cfg: Config, gap: real)
    requires ConfigOk(cfg) && 0.0 < gap && cfg.staleAfter <= gap
    ensures SilenceEnds(cfg, gap) <==> cfg.decay(gap) < cfg.promotion || cfg.decay(gap) < MIN_CONFIDENCE
  {
    if cfg.decay(gap) < cfg.promotion || cfg.decay(gap) < MIN_CONFIDENCE {
      forall h: Track, now: real | Sound(cfg, h) && Decays(h, now) && now - h.lastSeen == gap
        ensures Decayed(cfg, h, now).state.Stale? || Decayed(cfg, h, now).state.Expired?
      {
        FadesBelow(h.confidence, cfg.decay(gap));
        SilenceMakesStaleIff(cfg, h, now);
      }
    } else {
      var h := Track(1.0, Candidate, map[], 1, [], 0.0, Position(0.0, 0.0), 0.0, 0.0, gap, false, "");
      SilenceMakesStaleIff(cfg, h, gap);
      assert Sound(cfg, h) && Decays(h, gap) && gap - h.lastSeen == gap && Faded(cfg, h, gap) == cfg.decay(gap);
    }
  }

  lemma FadesBelow(confidence: real, factor: real)
    requires 0.0 <= confidence <= 1.0 && 0.0 <= factor <= 1.0
    ensures Weakened(confidence, factor) <= factor
  {
    Shrinks(factor, confidence);
  }

  /** Under the default settings, where 300 s and more leave less than a twentieth of the confidence, silence never
      verifies anything. */
  lemma DefaultsEndInSilence(cfg: Config, gap: real)
    requires ConfigOk(cfg) && cfg.promotion == 0.7 && cfg.staleAfter == 300.0 && 300.0 <= gap
    requires forall t: real {:trigger cfg.decay(t)} :: 300.0 <= t ==> cfg.decay(t) < 0.05
    ensures SilenceEnds(cfg, gap)
  {
    SilenceEndsIff(cfg, gap);
  }

  /** Under a slower decay a silent candidate that nobody confirmed is promoted by decay alone. */
  lemma SilenceCanVerify(cfg: Config, h: Track)
    requires cfg.promotion == 0.7 && cfg.staleAfter == 300.0 && cfg.decay(400.0) == 0.8
    requires h.confidence == 1.0 && h.state.Candidate? && h.firstSeen == h.lastSeen == 0.0 && h.ttl == 3600.0
    ensures Decayed(cfg, h, 400.0).state.Verified?
  {
    assert Faded(cfg, h, 400.0) == 0.8;
  }

  // ---------------------------------------------------------------- the record updated in place

  class HazardRecord {
    const cfg: Config
    const ttl: real
    const temporary: bool
    const firstSeen: real
    var confidence: real
    var state: HazardState
    var contributions: map<string, nat>
    var evidence: nat
    var sources: seq<string>
    var severity: real
    var position: Position
    var lastSeen: real
    var roadSegment: string

    ghost function Model(): Track
      reads this
    {
      Track(confidence, state, contributions, evidence, sources, severity, position, firstSeen, lastSeen, ttl,
            temporary, roadSegment)
    }

    constructor (cfg: Config, r: Report, ttl: real, temporary: bool)
      ensures this.cfg == cfg && Model() == Created(r, ttl, temporary)
    {
      this.cfg, this.ttl, this.temporary, firstSeen := cfg, ttl, temporary, r.observedAt;
      confidence, state, contributions, evidence, sources := Clamp(r.confidence), Candidate, map[r.source := 1], 1,
          [r.source];
      severity, position, lastSeen, roadSegment := Clamp(r.severity), r.position, r.observedAt, r.roadSegment;
    }

    /** Positive evidence from a source that has now reported `count` times. */
    method Confirm(r: Report, count: nat)
      requires count > 0
      modifies this`evidence, this`sources, this`confidence, this`position, this`severity, this`lastSeen,
          this`roadSegment
      ensures evidence == old(evidence) + 1 && lastSeen == r.observedAt
      ensures sources == if r.source in old(sources) then old(sources) else old(sources) + [r.source]
      ensures confidence == Recomputed(old(confidence), r.confidence, cfg.weight(count))
      ensures position == Shifted(old(position), r.position, confidence)
      ensures severity == MinReal(1.0, MaxReal(old(severity), r.severity))
      ensures roadSegment == if r.roadSegment != "" then r.roadSegment else old(roadSegment)
    {
      evidence := evidence + 1;
      if r.source !in sources {
        sources := sources + [r.source];
      }
      confidence := Recomputed(confidence, r.confidence, cfg.weight(count));
      position := Shifted(position, r.position, confidence);
      severity := MinReal(1.0, MaxReal(severity, r.severity));
      lastSeen := r.observedAt;
      if r.roadSegment != "" {
        roadSegment := r.roadSegment;
      }
    }

    method Update(r: Report)
      modifies this
      ensures Model() == Updated(cfg, old(Model()), r)
    {
      ghost var before := Model();
      var count := (if r.source in contributions then contributions[r.source] else 0) + 1;
      contributions := contributions[r.source := count];
      if r.negative {
        var decay := if temporary then NEGATIVE_FACTOR * r.confidence * 2.0 else NEGATIVE_FACTOR * r.confidence;
        confidence := MaxReal(0.0, confidence - decay);
      } else {
        Confirm(r, count);
      }
      assert Model() == Integrated(cfg, before, r);
      state := Transition(cfg, confidence, state);
    }

    method Decay(now: real)
      modifies this
      ensures Model() == Decayed(cfg, old(Model()), now)
    {
      var gap := now - lastSeen;
      if gap <= 0.0 || state.Expired? {
        return;
      }
      confidence := MaxReal(0.0, Weakened(confidence, cfg.decay(gap)));
      if gap >= cfg.staleAfter && !state.Stale? {
        state := Stale;
      }
      if now - firstSeen > ttl {
        state, confidence := Expired, 0.0;
      }
      if confidence < MIN_CONFIDENCE {
        state, confidence := Expired, 0.0;
      }
      if !state.Expired? {
        state := Transition(cfg, confidence, state);
      }
    }
  }
}
