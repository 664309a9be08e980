/** How much doubt repeated observations remove in the cooperative fusion engine. */
module Corroboration {
  import opened Basics
  import opened Hazards
  import opened EvidenceWeight
  import C = HazardFusion

  function AsObservation(c: Claim): Observation {
    Observation(Other, Position(0.0, 0.0), 0.0, c.source, c.confidence, 0.5, None)
  }

  /** The hazard created from the first observation, with the others merged into it. */
  function FusedHazard(g: C.Settings, claims: seq<Claim>): Hazard
    requires claims != []
  {
    if |claims| == 1 then C.Fresh(AsObservation(claims[0]))
    else C.Merged(g, FusedHazard(g, claims[..|claims| - 1]), AsObservation(claims[|claims| - 1]))
  }

  /** A new source counts half, a known one a twentieth. */
  function Share(claims: seq<Claim>, i: nat): real
    requires i < |claims|
  {
    if Occurrences(claims[..i], claims[i].source) == 0 then 0.5 else 0.05
  }

  function FusionFactors(claims: seq<Claim>): seq<real> {
    seq(|claims|, i requires 0 <= i < |claims| => 1.0 - claims[i].confidence * Share(claims, i))
  }

  /** Factors of independent sources. */
  function Halved(claims: seq<Claim>): seq<real> {
    seq(|claims|, i requires 0 <= i < |claims| => 1.0 - claims[i].confidence * 0.5)
  }

  lemma {:induction false} FusedSources(g: C.Settings, claims: seq<Claim>, source: string)
    requires claims != []
    ensures source in FusedHazard(g, claims).sources <==> Occurrences(claims, source) > 0
  {
    var n := |claims| - 1;
    if n == 0 {
      assert claims[..0] == [];
    } else {
      FusedSources(g, claims[..n], source);
      MergedParts(g, FusedHazard(g, claims[..n]), claims[n]);
    }
  }

  lemma MergedParts(g: C.Settings, h: Hazard, c: Claim)
    ensures
      var h' := C.Merged(g, h, AsObservation(c));
      && h'.confidence == C.Fused(h.confidence, c.confidence, c.source !in h.sources)
      && h'.sources == (if c.source in h.sources then h.sources else h.sources + [c.source])
  {
  }

  /** The confidence alone. */
  function Believed(claims: seq<Claim>): real
    requires claims != []
  {
    var n := |claims| - 1;
    if n == 0 then claims[0].confidence * 0.5
    else C.Fused(Believed(claims[..n]), claims[n].confidence, Occurrences(claims[..n], claims[n].source) == 0)
  }

  lemma {:induction false} FusionBelieves(g: C.Settings, claims: seq<Claim>)
    requires claims != []
    ensures FusedHazard(g, claims).confidence == Believed(claims)
  {
    var n := |claims| - 1;
    if n > 0 {
      FusionBelieves(g, claims[..n]);
      FusedSources(g, claims[..n], claims[n].source);
      MergedParts(g, FusedHazard(g, claims[..n]), claims[n]);
    }
  }

  lemma FusedDoubt(base: real, confidence: real, newSource: bool, after: real, factor: real)
    requires 0.0 <= base <= 1.0 && 0.0 <= confidence <= 1.0 && after == C.Fused(base, confidence, newSource)
    requires factor == 1.0 - confidence * (if newSource then 0.5 else 0.05)
    ensures 1.0 - after == (1.0 - base) * factor && 0.0 <= after <= 1.0
  {
    var share := if newSource then 0.5 else 0.05;
    Times(0.0, 1.0 - base, 0.0, factor);
    Times(1.0 - base, 1.0, factor, 1.0);
    Distribute(base, confidence * share);
  }

  lemma Distribute(base: real, x: real)
    ensures 1.0 - (base + x * (1.0 - base)) == (1.0 - base) * (1.0 - x)
  {
  }

  lemma {:induction false} BelievedInUnit(claims: seq<Claim>)
    requires claims != [] && ClaimsOk(claims)
    ensures 0.0 <= Believed(claims) <= 1.0
  {
    var n := |claims| - 1;
    if n > 0 {
      BelievedInUnit(claims[..n]);
      FusedDoubt(Believed(claims[..n]), claims[n].confidence, Occurrences(claims[..n], claims[n].source) == 0,
                 Believed(claims), 1.0 - claims[n].confidence * Share(claims, n));
    }
  }

  function Beliefs(claims: seq<Claim>): seq<real> {
    seq(|claims|, i requires 0 <= i < |claims| => Believed(claims[..i + 1]))
  }

  lemma MergeDoubt(claims: seq<Claim>, i: nat, before: real, after: real, factor: real)
    requires ClaimsOk(claims) && 0 < i < |claims|
    requires before == Believed(claims[..i]) && after == Believed(claims[..i + 1]) && factor == FusionFactors(claims)[i]
    ensures 1.0 - after == (1.0 - before) * factor
  {
    BelievedInUnit(claims[..i]);
    assert claims[..i + 1][..i] == claims[..i];
    FusedDoubt(before, claims[i].confidence, Occurrences(claims[..i], claims[i].source) == 0, after, factor);
  }

  lemma BeliefsLinked(claims: seq<Claim>, i: nat)
    requires ClaimsOk(claims) && i < |claims|
    ensures Link(Beliefs(claims), FusionFactors(claims), i)
  {
    if i == 0 {
      assert claims[..0] == [] && |claims[..1]| == 1;
    } else {
      var before, after, factor := Beliefs(claims)[i - 1], Beliefs(claims)[i], FusionFactors(claims)[i];
      MergeDoubt(claims, i, before, after, factor);
      LinkFrom(Beliefs(claims), FusionFactors(claims), i, before, after, factor);
    }
  }

  /** The doubt left is the product of one factor per observation. */
  lemma FusionDoubt(g: C.Settings, claims: seq<Claim>)
    requires claims != [] && ClaimsOk(claims)
    ensures 1.0 - FusedHazard(g, claims).confidence == Product(FusionFactors(claims))
  {
    forall i: nat | i < |claims|
      ensures Link(Beliefs(claims), FusionFactors(claims), i)
    {
      BeliefsLinked(claims, i);
    }
    WholeChain(Beliefs(claims), FusionFactors(claims));
    assert claims[..|claims|] == claims;
    FusionBelieves(g, claims);
  }

  /** Merging removes no more doubt than independent sources would, and strictly less exactly when some source
      repeated itself with a positive confidence. */
  lemma RepeatsCountLess(g: C.Settings, claims: seq<Claim>)
    requires claims != [] && ClaimsOk(claims)
    ensures 1.0 - FusedHazard(g, claims).confidence >= Product(Halved(claims))
    ensures 1.0 - FusedHazard(g, claims).confidence > Product(Halved(claims)) <==>
            exists i :: 0 <= i < |claims| && Repeats(claims, i) && claims[i].confidence > 0.0
  {
    FusionDoubt(g, claims);
    var low, high := Halved(claims), FusionFactors(claims);
    forall i | 0 <= i < |claims|
      ensures 0.0 < low[i] <= high[i] && (low[i] < high[i] <==> Repeats(claims, i) && claims[i].confidence > 0.0)
    {
      assert Share(claims, i) == if Repeats(claims, i) then 0.05 else 0.5;
    }
    ProductStrictIff(low, high);
  }

  // ---------------------------------------------------------------- one source, many observations

  /** Factor of the k-th observation from one source. */
  function FusionFactor(c: real): nat -> real {
    (k: nat) => if k <= 1 then 1.0 - c * 0.5 else 1.0 - c * 0.05
  }

  lemma SameFactors(source: string, c: real, n: nat)
    ensures Product(FusionFactors(Same(source, c, n))) == SameDoubt(FusionFactor(c), n)
  {
    var factors := FusionFactors(Same(source, c, n));
    forall k | 0 <= k < n
      ensures factors[k] == FusionFactor(c)(k + 1)
    {
      assert Same(source, c, n)[..k] == Same(source, c, k);
      SameOccurs(source, c, k);
    }
    ProductIsSameDoubt(factors, FusionFactor(c));
  }

  /** The doubt that `n` observations of confidence `c` from one source leave. */
  lemma SameDoubtIs(g: C.Settings, source: string, c: real, n: nat)
    requires 0.0 <= c <= 1.0 && n > 0
    ensures 1.0 - FusedHazard(g, Same(source, c, n)).confidence == SameDoubt(FusionFactor(c), n)
  {
    FusionDoubt(g, Same(source, c, n));
    SameFactors(source, c, n);
  }

  lemma {:induction false} SameDoubtClosed(c: real, n: nat)
    requires n > 0
    ensures SameDoubt(FusionFactor(c), n) == (1.0 - c * 0.5) * Power(1.0 - c * 0.05, n - 1)
  {
    var factor := FusionFactor(c);
    if n == 1 {
      assert SameDoubt(factor, 0) == 1.0;
    } else {
      SameDoubtClosed(c, n - 1);
      Associates(1.0 - c * 0.5, Power(1.0 - c * 0.05, n - 2), 1.0 - c * 0.05);
    }
  }

  lemma Associates(a: real, b: real, c: real)
    ensures a * b * c == a * (b * c)
  {
  }

  /** `n` observations of positive confidence from one source leave strictly more doubt than `n` independent
      sources, for two or more observations. */
  lemma OneSourceCannotImitateMany(g: C.Settings, source: string, c: real, n: nat)
    requires 0.0 <= c <= 1.0 && n > 0
    ensures 1.0 - FusedHazard(g, Same(source, c, n)).confidence >= Power(1.0 - c * 0.5, n)
    ensures n >= 2 ==>
              (1.0 - FusedHazard(g, Same(source, c, n)).confidence > Power(1.0 - c * 0.5, n) <==> c > 0.0)
  {
    var claims := Same(source, c, n);
    RepeatsCountLess(g, claims);
    ProductOfEqual(Halved(claims), 1.0 - c * 0.5);
    if n >= 2 {
      SameRepeats(source, c, n);
    }
  }

  // ---------------------------------------------------------------- a hundred against ten

  lemma {:induction false} PowerPositive(x: real, n: nat)
    requires 0.0 < x
    ensures 0.0 < Power(x, n)
  {
    if n > 0 {
      PowerPositive(x, n - 1);
    }
  }

  lemma {:induction false} PowerAdds(x: real, m: nat, n: nat)
    ensures Power(x, m + n) == Power(x, m) * Power(x, n)
  {
    if n > 0 {
      PowerAdds(x, m, n - 1);
      Associates(Power(x, m), Power(x, n - 1), x);
    }
  }

  lemma {:induction false} PowerMultiplies(x: real, m: nat, n: nat)
    ensures Power(x, m * n) == Power(Power(x, m), n)
  {
    if n > 0 {
      PowerMultiplies(x, m, n - 1);
      PowerAdds(x, m * (n - 1), m);
      assert m * n == m * (n - 1) + m;
    }
  }

  lemma {:induction false} PowerGrows(a: real, b: real, n: nat)
    requires 0.0 < a && 0.0 < b && n > 0
    ensures Power(a, n) < Power(b, n) <==> a < b
    ensures Power(a, n) == Power(b, n) <==> a == b
  {
    if n == 1 {
      assert Power(a, 0) == 1.0 && Power(b, 0) == 1.0;
    } else {
      PowerGrows(a, b, n - 1);
      PowerPositive(a, n - 1);
      PowerPositive(b, n - 1);
      if a <= b {
        Times(Power(a, n - 1), Power(b, n - 1), a, b);
      } else {
        Times(Power(b, n - 1), Power(a, n - 1), b, a);
      }
    }
  }

  /** k*j+1 observations from one source leave more doubt than j+1 from independent ones if and only if
      (1 - c/20)^k > 1 - c/2, and less if and only if it is less. */
  lemma ManyCountLessThanFewIff(c: real, k: nat, j: nat, many: nat)
    requires 0.0 <= c <= 1.0 && j > 0 && many == k * j
    ensures SameDoubt(FusionFactor(c), many + 1) > Power(1.0 - c * 0.5, j + 1) <==>
        Power(1.0 - c * 0.05, k) > 1.0 - c * 0.5
    ensures SameDoubt(FusionFactor(c), many + 1) < Power(1.0 - c * 0.5, j + 1) <==>
        Power(1.0 - c * 0.05, k) < 1.0 - c * 0.5
  {
    SameDoubtClosed(c, many + 1);
    RootsCompared(1.0 - c * 0.5, 1.0 - c * 0.05, k, j, many, SameDoubt(FusionFactor(c), many + 1));
  }

  lemma RootsCompared(half: real, twentieth: real, k: nat, j: nat, many: nat, doubt: real)
    requires 0.0 < half && 0.0 < twentieth && j > 0 && many == k * j && doubt == half * Power(twentieth, many)
    ensures doubt > Power(half, j + 1) <==> Power(twentieth, k) > half
    ensures doubt < Power(half, j + 1) <==> Power(twentieth, k) < half
  {
    PowerMultiplies(twentieth, k, j);
    PowerPositive(twentieth, k);
    ScaledPowers(half, Power(twentieth, k), j, Power(twentieth, many));
  }

  lemma ScaledPowers(half: real, root: real, j: nat, scaled: real)
    requires 0.0 < half && 0.0 < root && j > 0 && scaled == Power(root, j)
    ensures half * scaled > Power(half, j + 1) <==> root > half
    ensures half * scaled < Power(half, j + 1) <==> root < half
  {
    PowerGrows(half, root, j);
    PowerGrows(root, half, j);
    TimesStrictIff(half, Power(half, j), scaled);
  }

  lemma TimesStrictIff(half: real, a: real, b: real)
    requires 0.0 < half
    ensures half * b > a * half <==> b > a
    ensures half * b < a * half <==> b < a
  {
  }

  /** A hundred observations from one source against ten from independent sources: with detectors half sure the
      single source counts for less, as documented; with detectors a tenth sure it counts for more. */
  lemma HundredAgainstTen(g: C.Settings, source: string, hundred: nat, ten: nat)
    requires hundred == 100 && ten == 10
    ensures 1.0 - FusedHazard(g, Same(source, 0.5, hundred)).confidence > Power(1.0 - 0.5 * 0.5, ten)
    ensures 1.0 - FusedHazard(g, Same(source, 0.1, hundred)).confidence < Power(1.0 - 0.1 * 0.5, ten)
  {
    SameDoubtIs(g, source, 0.5, hundred);
    SameDoubtIs(g, source, 0.1, hundred);
    DoubtsCompared(hundred, ten, 11, 9);
  }

  lemma DoubtsCompared(hundred: nat, ten: nat, k: nat, j: nat)
    requires k == 11 && j == 9 && hundred == k * j + 1 && ten == j + 1
    ensures SameDoubt(FusionFactor(0.5), hundred) > Power(1.0 - 0.5 * 0.5, ten)
    ensures SameDoubt(FusionFactor(0.1), hundred) < Power(1.0 - 0.1 * 0.5, ten)
  {
    ManyCountLessThanFewIff(0.5, k, j, k * j);
    ManyCountLessThanFewIff(0.1, k, j, k * j);
    EleventhPowers(k);
  }

  lemma EleventhPowers(k: nat)
    requires k == 11
    ensures Power(1.0 - 0.5 * 0.05, k) > 1.0 - 0.5 * 0.5 && Power(1.0 - 0.1 * 0.05, k) < 1.0 - 0.1 * 0.5
  {
    assert Power(0.975, 11) > 0.75 && Power(0.995, 11) < 0.95;
  }
}
