/** What a detector hazard says about the reports it was made from, and what a denial costs it. */
module DetectorHistory {
  import opened Basics
  import opened Hazards
  import opened DetectorFusion

  // ---------------------------------------------------------------- one report

  /** A denial takes a quarter of its confidence off, twice that from a temporary hazard, down to zero; it counts as a
      report of its source and changes nothing else but the state. */
  lemma DenialCosts(cfg: Config, h: Track, r: Report)
    requires r.negative
    ensures
      var r' := Updated(cfg, h, r);
      var cost := 0.25 * r.confidence * (if h.temporary then 2.0 else 1.0);
      && r'.confidence == (if h.confidence >= cost then h.confidence - cost else 0.0)
      && r' == h.(confidence := r'.confidence, state := r'.state,
                  contributions := h.contributions[r.source := Count(h, r.source) + 1])
  {
  }

  /** A confirmation moves the position by a share of the way, the larger the more confident the hazard is, up to a
      fifth. */
  lemma ConfirmationMoves(cfg: Config, h: Track, r: Report)
    requires !r.negative && WeightsOk(cfg.weight) && 0.0 <= h.confidence <= 1.0 && 0.0 <= r.confidence <= 1.0
    ensures
      var r' := Updated(cfg, h, r);
      var share := 0.2 * r'.confidence;
      && 0.0 <= share <= 0.2 && h.confidence <= r'.confidence
      && r'.position.lat - h.position.lat == share * (r.position.lat - h.position.lat)
      && r'.position.lon - h.position.lon == share * (r.position.lon - h.position.lon)
  {
    RecomputedInUnit(h.confidence, r.confidence, cfg.weight(Count(h, r.source) + 1));
  }

  /** The state that a report leaves behind: expired without confidence, verified with enough of it, stale when a
      verified hazard lost it, and otherwise as before. */
  lemma ReportedStateIs(cfg: Config, h: Track, r: Report)
    requires !h.state.Expired?
    ensures
      var r' := Updated(cfg, h, r);
      && (r'.state.Expired? <==> r'.confidence < 0.01)
      && (r'.state.Verified? <==> r'.confidence >= 0.01 && r'.confidence >= cfg.promotion)
      && (r'.state.Stale? <==> 0.01 <= r'.confidence < cfg.promotion && (h.state.Verified? || h.state.Stale?))
  {
  }

  /** What time does to a live hazard: past its time to live or almost without confidence it expires; otherwise it is
      verified with enough confidence left, and stale if it lost that or was silent for the threshold. */
  lemma DecayIs(cfg: Config, h: Track, now: real)
    requires !h.state.Expired? && now > h.lastSeen
    ensures
      var left := MaxReal(0.0, h.confidence * cfg.decay(now - h.lastSeen));
      var r := Decayed(cfg, h, now);
      && r == h.(confidence := r.confidence, state := r.state)
      && (r.state.Expired? <==> now > h.firstSeen + h.ttl || left < 0.01)
      && r.confidence == (if r.state.Expired? then 0.0 else left)
      && (r.state.Verified? <==> !r.state.Expired? && left >= cfg.promotion)
      && (r.state.Stale? <==> !r.state.Expired? && left < cfg.promotion
                              && (!h.state.Candidate? || now >= h.lastSeen + cfg.staleAfter))
  {
  }

  lemma NoDecayBackwards(cfg: Config, h: Track, now: real)
    requires h.state.Expired? || now <= h.lastSeen
    ensures Decayed(cfg, h, now) == h
  {
  }

  /** A report never brings an expired hazard back. */
  lemma ExpiredStaysExpired(cfg: Config, h: Track, r: Report)
    requires h.state.Expired?
    ensures Updated(cfg, h, r).state.Expired?
  {
  }

  // ---------------------------------------------------------------- over runs

  /** The confirmations of a run, in order. */
  function Confirmations(events: seq<Event>): seq<Report> {
    if events == [] then []
    else
      var e := events[|events| - 1];
      Confirmations(events[..|events| - 1]) + (if e.Reported? && !e.r.negative then [e.r] else [])
  }

  /** The reports that a source made, for or against. */
  function ReportsOf(events: seq<Event>, source: string): nat {
    if events == [] then 0
    else
      var e := events[|events| - 1];
      ReportsOf(events[..|events| - 1], source) + (if e.Reported? && e.r.source == source then 1 else 0)
  }

  /** The reports confirm the hazard from its first on. */
  ghost predicate Summarises(h: Track, first: Report, confirmed: seq<Report>) {
    && h.evidence == 1 + |confirmed|
    && h.firstSeen == first.observedAt
    && h.lastSeen == (if confirmed == [] then first else confirmed[|confirmed| - 1]).observedAt
    && SeverityIsGreatest(h.severity, first, confirmed)
    && SourcesAre(h.sources, first, confirmed)
    && SegmentIsLatest(h.roadSegment, first, confirmed)
  }

  /** The greatest reported severity, cut off to [0, 1]. */
  ghost predicate SeverityIsGreatest(severity: real, first: Report, confirmed: seq<Report>) {
    && severity >= Clamp(first.severity)
    && (forall i :: 0 <= i < |confirmed| ==> severity >= MinReal(1.0, confirmed[i].severity))
    && (severity == Clamp(first.severity)
        || exists i :: 0 <= i < |confirmed| && severity == MinReal(1.0, confirmed[i].severity))
  }

  ghost predicate SourcesAre(sources: seq<string>, first: Report, confirmed: seq<Report>) {
    && Distinct(sources)
    && forall x {:trigger x in sources} {:trigger HasSource(confirmed, x)} ::
         x in sources <==> x == first.source || HasSource(confirmed, x)
  }

  ghost predicate HasSource(confirmed: seq<Report>, x: string) {
    exists i :: 0 <= i < |confirmed| && confirmed[i].source == x
  }

  /** The latest road segment that a report named. */
  ghost predicate SegmentIsLatest(segment: string, first: Report, confirmed: seq<Report>) {
    || (segment == first.roadSegment && forall i :: 0 <= i < |confirmed| ==> confirmed[i].roadSegment == "")
    || exists k :: 0 <= k < |confirmed| && confirmed[k].roadSegment == segment && segment != ""
                   && forall i :: k < i < |confirmed| ==> confirmed[i].roadSegment == ""
  }

  lemma SourcesSnoc(sources: seq<string>, first: Report, confirmed: seq<Report>, r: Report)
    requires SourcesAre(sources, first, confirmed)
    ensures SourcesAre(if r.source in sources then sources else sources + [r.source], first, confirmed + [r])
  {
    var longer := confirmed + [r];
    forall x
      ensures HasSource(longer, x) <==> x == r.source || HasSource(confirmed, x)
    {
      if i :| 0 <= i < |confirmed| && confirmed[i].source == x {
        assert longer[i].source == x;
      }
      assert longer[|confirmed|] == r;
    }
  }

  lemma SegmentSnoc(segment: string, first: Report, confirmed: seq<Report>, r: Report)
    requires SegmentIsLatest(segment, first, confirmed)
    ensures SegmentIsLatest(if r.roadSegment != "" then r.roadSegment else segment, first, confirmed + [r])
  {
    var longer := confirmed + [r];
    assert longer[|confirmed|] == r;
    if r.roadSegment == "" && segment != "" {
      if k :| 0 <= k < |confirmed| && confirmed[k].roadSegment == segment
              && forall i :: k < i < |confirmed| ==> confirmed[i].roadSegment == "" {
        assert longer[k].roadSegment == segment;
      }
    }
  }

  lemma SeveritySnoc(severity: real, first: Report, confirmed: seq<Report>, r: Report)
    requires SeverityIsGreatest(severity, first, confirmed) && severity <= 1.0
    ensures SeverityIsGreatest(MinReal(1.0, MaxReal(severity, r.severity)), first, confirmed + [r])
  {
    var longer := confirmed + [r];
    assert longer[|confirmed|] == r;
    if i :| 0 <= i < |confirmed| && severity == MinReal(1.0, confirmed[i].severity) {
      assert longer[i].severity == confirmed[i].severity;
    }
  }

  ghost predicate Told(h: Track, first: Report, events: seq<Event>) {
    && h.severity <= 1.0 && Summarises(h, first, Confirmations(events))
    && forall x {:trigger Count(h, x)} :: Count(h, x) == ReportsOf(events, x) + (if x == first.source then 1 else 0)
  }

  /** The same record but for confidence and state. */
  ghost predicate SameHistory(h: Track, h': Track) {
    h' == h.(confidence := h'.confidence, state := h'.state)
  }

  lemma SameHistoryTells(h: Track, h': Track, first: Report, events: seq<Event>, e: Event)
    requires Told(h, first, events) && SameHistory(h, h') && e.Aged?
    ensures Told(h', first, events + [e])
  {
    assert (events + [e])[..|events|] == events;
    assert Confirmations(events + [e]) == Confirmations(events);
    assert forall x :: Count(h', x) == Count(h, x) && ReportsOf(events + [e], x) == ReportsOf(events, x);
  }

  lemma CountsSnoc(h: Track, first: Report, events: seq<Event>, r: Report, x: string)
    requires Told(h, first, events)
    ensures
      var counted := h.(contributions := h.contributions[r.source := Count(h, r.source) + 1]);
      Count(counted, x) == ReportsOf(events + [Reported(r)], x) + (if x == first.source then 1 else 0)
  {
    assert (events + [Reported(r)])[..|events|] == events;
    assert Count(h, x) == ReportsOf(events, x) + (if x == first.source then 1 else 0);
  }

  lemma ReportTells(cfg: Config, h: Track, first: Report, events: seq<Event>, r: Report)
    requires Told(h, first, events)
    ensures Told(Updated(cfg, h, r), first, events + [Reported(r)])
  {
    var confirmed := Confirmations(events);
    assert (events + [Reported(r)])[..|events|] == events;
    forall x
      ensures Count(Updated(cfg, h, r), x) ==
              ReportsOf(events + [Reported(r)], x) + (if x == first.source then 1 else 0)
    {
      CountsSnoc(h, first, events, r, x);
    }
    if r.negative {
      assert Confirmations(events + [Reported(r)]) == confirmed;
    } else {
      assert Confirmations(events + [Reported(r)]) == confirmed + [r];
      SourcesSnoc(h.sources, first, confirmed, r);
      SegmentSnoc(h.roadSegment, first, confirmed, r);
      SeveritySnoc(h.severity, first, confirmed, r);
    }
  }

  lemma StepTells(cfg: Config, h: Track, first: Report, events: seq<Event>)
    requires events != [] && Told(h, first, events[..|events| - 1]) && !h.state.Expired?
    ensures Told(Step(cfg, h, events[|events| - 1]), first, events)
  {
    var e, before := events[|events| - 1], events[..|events| - 1];
    assert events == before + [e];
    match e
    case Reported(r) => ReportTells(cfg, h, first, before, r);
    case Aged(now) => SameHistoryTells(h, Decayed(cfg, h, now), first, before, e);
  }

  /** As long as it has not expired a hazard is a summary of its reports: how many confirmed it, from which sources,
      with what greatest severity, when first and last, on which road, and how many each source made. */
  lemma {:induction false} LiveHazardSummarisesReports(cfg: Config, first: Report, ttl: real, temporary: bool,
                                                       events: seq<Event>)
    ensures
      var h := Run(cfg, Created(first, ttl, temporary), events);
      !h.state.Expired? ==>
        && Summarises(h, first, Confirmations(events))
        && forall x :: Count(h, x) == ReportsOf(events, x) + (if x == first.source then 1 else 0)
  {
    if !Run(cfg, Created(first, ttl, temporary), events).state.Expired? {
      LiveIsTold(cfg, first, ttl, temporary, events);
    }
  }

  lemma {:induction false} LiveIsTold(cfg: Config, first: Report, ttl: real, temporary: bool, events: seq<Event>)
    requires !Run(cfg, Created(first, ttl, temporary), events).state.Expired?
    ensures Told(Run(cfg, Created(first, ttl, temporary), events), first, events)
  {
    var start := Created(first, ttl, temporary);
    if events == [] {
      assert start.sources[0] == first.source;
    } else {
      var n := |events| - 1;
      var before := Run(cfg, start, events[..n]);
      StepNeverBack(cfg, before, events[n]);
      LiveIsTold(cfg, first, ttl, temporary, events[..n]);
      StepTells(cfg, before, first, events);
    }
  }
}
