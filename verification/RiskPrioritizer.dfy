/** The edge prioritizer: a clamped weighted score and the selection of the one active risk. */
module RiskPrioritizer {
  import opened Basics

  datatype RiskType =
    | Collision | HeadOn | RearEnd | IntersectionConflict | PedestrianConflict | EmergencyBraking

  /** The fields of a risk event that the node and the prioritizer read.  Each evidence entry carries
      an optional "max_vulnerability". */
  datatype RiskEvent = RiskEvent(
    kind: RiskType,
    actors: seq<string>,
    ttc: Option<real>,
    severity: real,
    confidence: real,
    riskScore: real,
    evidence: seq<Option<real>>)

  datatype Weights = Weights(probability: real, ttc: real, uncertainty: real, consequence: real, vulnerability: real)

  const DEFAULT_WEIGHTS := Weights(0.30, 0.25, 0.15, 0.20, 0.10)
  const DEFAULT_VULNERABILITY := 0.40

  datatype RawPolicy = Policy(weights: Weights, horizon: real)

  /** Urgency divides by the horizon. */
  type Policy = p: RawPolicy | p.horizon != 0.0 witness Policy(DEFAULT_WEIGHTS, 8.0)

  datatype Factors = Factors(
    collisionProbability: real,
    ttcUrgency: real,
    uncertaintyPenalty: real,
    consequence: real,
    vulnerability: real,
    composite: real)

  function TtcUrgency(ttc: Option<real>, horizon: real): real
    requires horizon != 0.0
  {
    match ttc
    case None => 0.0
    case Some(t) => if t <= 0.0 then 1.0 else MaxReal(0.0, 1.0 - t / horizon)
  }

  function Vulnerability(evidence: seq<Option<real>>): (v: real)
    ensures v >= DEFAULT_VULNERABILITY
    ensures forall i :: 0 <= i < |evidence| && evidence[i].Some? ==> evidence[i].value <= v
    ensures v == DEFAULT_VULNERABILITY || Some(v) in evidence
  {
    if evidence == [] then DEFAULT_VULNERABILITY
    else
      var before := Vulnerability(evidence[..|evidence| - 1]);
      var last := evidence[|evidence| - 1];
      if last.Some? && last.value > before then last.value else before
  }

  method ExtractVulnerability(evidence: seq<Option<real>>) returns (v: real)
    ensures v == Vulnerability(evidence)
  {
    v := DEFAULT_VULNERABILITY;
    for i := 0 to |evidence|
      invariant v == Vulnerability(evidence[..i])
    {
      assert evidence[..i + 1][..i] == evidence[..i];
      if evidence[i].Some? && evidence[i].value > v {
        v := evidence[i].value;
      }
    }
    assert evidence[..|evidence|] == evidence;
  }

  function FactorsWith(p: Policy, risk: RiskEvent, vulnerability: real): Factors {
    var urgency := TtcUrgency(risk.ttc, p.horizon);
    var penalty := 1.0 - risk.confidence;
    var w := p.weights;
    var blend := w.probability * risk.riskScore + w.ttc * urgency + w.uncertainty * (1.0 - penalty)
                 + w.consequence * risk.severity + w.vulnerability * vulnerability;
    Factors(risk.riskScore, urgency, penalty, risk.severity, vulnerability, MaxReal(0.0, MinReal(1.0, blend)))
  }

  function Score(p: Policy, risk: RiskEvent): (s: real)
    ensures 0.0 <= s <= 1.0
  {
    FactorsWith(p, risk, Vulnerability(risk.evidence)).composite
  }

  method ComputeFactors(p: Policy, risk: RiskEvent) returns (factors: Factors)
    ensures factors == FactorsWith(p, risk, Vulnerability(risk.evidence)) && factors.composite == Score(p, risk)
  {
    var vulnerability := ExtractVulnerability(risk.evidence);
    factors := FactorsWith(p, risk, vulnerability);
  }

  /** The position of the first risk of highest score. */
  function TopIndex(p: Policy, risks: seq<RiskEvent>): (i: nat)
    requires risks != []
    ensures i < |risks|
    ensures forall j :: 0 <= j < |risks| ==> Score(p, risks[j]) <= Score(p, risks[i])
    ensures forall j :: 0 <= j < i ==> Score(p, risks[j]) < Score(p, risks[i])
  {
    var n := |risks| - 1;
    if n == 0 then 0
    else
      var i := TopIndex(p, risks[..n]);
      assert forall j :: 0 <= j < n ==> risks[..n][j] == risks[j];
      if Score(p, risks[n]) > Score(p, risks[i]) then n else i
  }

  function Top(p: Policy, risks: seq<RiskEvent>): Option<RiskEvent>
  {
    if risks == [] then None else Some(risks[TopIndex(p, risks)])
  }

  lemma TopSnoc(p: Policy, risks: seq<RiskEvent>, i: nat)
    requires 0 < i < |risks|
    ensures Top(p, risks[..i]).Some?
    ensures Top(p, risks[..i + 1]) ==
            if Score(p, risks[i]) > Score(p, Top(p, risks[..i]).value) then Some(risks[i]) else Top(p, risks[..i])
  {
    assert risks[..i + 1][..i] == risks[..i];
  }

  /** The selection loop; its sentinel -1 is below every score. */
  method Prioritize(p: Policy, risks: seq<RiskEvent>) returns (best: Option<RiskEvent>)
    ensures best == Top(p, risks)
  {
    if risks == [] {
      return None;
    }
    best := None;
    var bestScore := -1.0;
    for i := 0 to |risks|
      invariant i == 0 ==> best == None && bestScore == -1.0
      invariant i > 0 ==> best == Top(p, risks[..i]) && bestScore == Score(p, best.value)
    {
      if i > 0 {
        TopSnoc(p, risks, i);
      }
      var factors := ComputeFactors(p, risks[i]);
      if factors.composite > bestScore {
        bestScore := factors.composite;
        best := Some(risks[i]);
      }
    }
    assert risks[..|risks|] == risks;
  }

  // ---------------------------------------------------------------- what the score weighs

  /** How soon a conflict is, as a share of the horizon. */
  lemma UrgencyIs(ttc: Option<real>, horizon: real)
    requires horizon > 0.0
    ensures
      var u := TtcUrgency(ttc, horizon);
      && 0.0 <= u <= 1.0
      && (ttc == None ==> u == 0.0)
      && (ttc.Some? && ttc.value >= horizon ==> u == 0.0)
      && (ttc.Some? && 0.0 <= ttc.value <= horizon ==> u * horizon == horizon - ttc.value)
      && (ttc.Some? && ttc.value <= 0.0 ==> u == 1.0)
  {
    if ttc.Some? && 0.0 < ttc.value {
      ShareLeft(ttc.value, horizon, ttc.value / horizon);
    }
  }

  lemma ShareLeft(t: real, horizon: real, share: real)
    requires horizon > 0.0 && 0.0 < t && share == t / horizon
    ensures share > 0.0 && (1.0 - share) * horizon == horizon - t && (share <= 1.0 <==> t <= horizon)
  {
    assert share * horizon == t;
  }

  /** The bounds that the risk schema enforces. */
  predicate Bounded(risk: RiskEvent) {
    && 0.0 <= risk.riskScore <= 1.0 && 0.0 <= risk.confidence <= 1.0 && 0.0 <= risk.severity <= 1.0
    && forall i :: 0 <= i < |risk.evidence| && risk.evidence[i].Some? ==> 0.0 <= risk.evidence[i].value <= 1.0
  }

  lemma {:induction false} VulnerabilityInUnit(evidence: seq<Option<real>>)
    requires forall i :: 0 <= i < |evidence| && evidence[i].Some? ==> 0.0 <= evidence[i].value <= 1.0
    ensures 0.4 <= Vulnerability(evidence) <= 1.0
  {
    if evidence != [] {
      VulnerabilityInUnit(evidence[..|evidence| - 1]);
    }
  }

  /** Under the default policy the parts add up as documented, and the clamp has no effect. */
  lemma DefaultScoreIs(p: Policy, risk: RiskEvent)
    requires p == Policy(DEFAULT_WEIGHTS, 8.0) && Bounded(risk)
    ensures Score(p, risk) == 0.3 * risk.riskScore + 0.25 * TtcUrgency(risk.ttc, 8.0) + 0.15 * risk.confidence
                              + 0.2 * risk.severity + 0.1 * Vulnerability(risk.evidence)
  {
    UrgencyIs(risk.ttc, 8.0);
    VulnerabilityInUnit(risk.evidence);
  }

  /** So of two risks that are otherwise alike the sooner one is preferred, and of two that are equally soon the one
      that is worse in every other respect. */
  lemma WorseScoresHigher(p: Policy, risk: RiskEvent, worse: RiskEvent)
    requires p == Policy(DEFAULT_WEIGHTS, 8.0) && Bounded(risk) && Bounded(worse)
    requires risk.riskScore <= worse.riskScore && risk.confidence <= worse.confidence
    requires risk.severity <= worse.severity && Vulnerability(risk.evidence) <= Vulnerability(worse.evidence)
    requires worse.ttc.Some? && (risk.ttc.Some? ==> worse.ttc.value <= risk.ttc.value)
    ensures Score(p, risk) <= Score(p, worse)
    ensures risk.ttc.Some? && 0.0 <= worse.ttc.value < risk.ttc.value <= 8.0 ==> Score(p, risk) < Score(p, worse)
  {
    DefaultScoreIs(p, risk);
    DefaultScoreIs(p, worse);
    UrgencyIs(risk.ttc, 8.0);
    UrgencyIs(worse.ttc, 8.0);
  }
}
