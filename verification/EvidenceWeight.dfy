/** How much doubt repeated reports remove, in both fusion engines, compared with independent sources. */
module EvidenceWeight {
  import opened Basics
  import D = DetectorFusion

  // ---------------------------------------------------------------- products

  function Product(xs: seq<real>): real {
    if xs == [] then 1.0 else Product(xs[..|xs| - 1]) * xs[|xs| - 1]
  }

  function Power(x: real, n: nat): real {
    if n == 0 then 1.0 else Power(x, n - 1) * x
  }

  lemma Times(a: real, b: real, c: real, d: real)
    requires 0.0 <= a <= b && 0.0 <= c <= d
    ensures 0.0 <= a * c <= b * d
    ensures 0.0 < a && 0.0 < c ==> 0.0 < a * c
    ensures 0.0 < a && 0.0 < c && (a < b || c < d) ==> a * c < b * d
  {
    assert a * c <= b * c;
    assert b * c <= b * d;
    if 0.0 < a && 0.0 < c {
      assert a < b ==> a * c < b * c;
      assert c < d ==> b * c < b * d;
    }
  }

  lemma {:induction false} ProductMonotone(low: seq<real>, high: seq<real>)
    requires |low| == |high| && forall i :: 0 <= i < |low| ==> 0.0 <= low[i] <= high[i]
    ensures 0.0 <= Product(low) <= Product(high)
  {
    if low != [] {
      var n := |low| - 1;
      ProductMonotone(low[..n], high[..n]);
      Times(Product(low[..n]), Product(high[..n]), low[n], high[n]);
    }
  }

  ghost predicate SomeSmaller(low: seq<real>, high: seq<real>)
    requires |low| == |high|
  {
    exists i :: 0 <= i < |low| && low[i] < high[i]
  }

  lemma SomeSmallerSnoc(low: seq<real>, high: seq<real>, n: nat)
    requires |low| == |high| == n + 1
    ensures SomeSmaller(low, high) <==> SomeSmaller(low[..n], high[..n]) || low[n] < high[n]
  {
    if i :| 0 <= i < |low| && low[i] < high[i] {
      assert i < n ==> low[..n][i] < high[..n][i];
    }
    if i :| 0 <= i < n && low[..n][i] < high[..n][i] {
      assert low[i] < high[i];
    }
  }

  /** `low` is positive and at most `high`, and less exactly when `strict`. */
  ghost predicate Below(low: real, high: real, strict: bool) {
    0.0 < low <= high && (low < high <==> strict)
  }

  lemma BelowTimes(a: real, b: real, c: real, d: real, low: real, high: real, before: bool, after: bool)
    requires Below(a, b, before) && 0.0 < c <= d && (after <==> before || c < d)
    requires low == a * c && high == b * d
    ensures Below(low, high, after)
  {
    Times(a, b, c, d);
  }

  /** Positive factors: the larger product is strictly larger exactly when some factor is. */
  lemma {:induction false} ProductStrictIff(low: seq<real>, high: seq<real>)
    requires |low| == |high| && forall i :: 0 <= i < |low| ==> 0.0 < low[i] <= high[i]
    ensures Below(Product(low), Product(high), SomeSmaller(low, high))
  {
    if low != [] {
      var n := |low| - 1;
      ProductStrictIff(low[..n], high[..n]);
      SomeSmallerSnoc(low, high, n);
      BelowTimes(Product(low[..n]), Product(high[..n]), low[n], high[n], Product(low), Product(high),
                 SomeSmaller(low[..n], high[..n]), SomeSmaller(low, high));
    }
  }

  lemma {:induction false} ProductOfEqual(xs: seq<real>, x: real)
    requires forall i :: 0 <= i < |xs| ==> xs[i] == x
    ensures Product(xs) == Power(x, |xs|)
  {
    if xs != [] {
      ProductOfEqual(xs[..|xs| - 1], x);
    }
  }

  // ---------------------------------------------------------------- claims

  /** A positive report: who, and how sure. */
  datatype Claim = Claim(source: string, confidence: real)

  predicate ClaimsOk(claims: seq<Claim>) {
    forall i :: 0 <= i < |claims| ==> 0.0 <= claims[i].confidence <= 1.0
  }

  function Occurrences(claims: seq<Claim>, source: string): nat {
    if claims == [] then 0
    else Occurrences(claims[..|claims| - 1], source) + (if claims[|claims| - 1].source == source then 1 else 0)
  }

  /** The i-th claim repeats an earlier source. */
  ghost predicate Repeats(claims: seq<Claim>, i: nat)
    requires i < |claims|
  {
    Occurrences(claims[..i], claims[i].source) > 0
  }

  function Same(source: string, confidence: real, n: nat): seq<Claim> {
    seq(n, i => Claim(source, confidence))
  }

  lemma {:induction false} SameOccurs(source: string, confidence: real, n: nat)
    ensures Occurrences(Same(source, confidence, n), source) == n
  {
    if n > 0 {
      SameOccurs(source, confidence, n - 1);
      assert Same(source, confidence, n)[..n - 1] == Same(source, confidence, n - 1);
    }
  }

  // ---------------------------------------------------------------- the detectors' engine

  function AsReport(c: Claim): D.Report {
    D.Report(c.source, c.confidence, 0.5, Position(0.0, 0.0), 0.0, false, "")
  }

  /** The hazard created from the first claim, with the others merged into it. */
  function DetectorHazard(cfg: D.Config, claims: seq<Claim>): D.Track
    requires claims != []
  {
    if |claims| == 1 then D.Created(AsReport(claims[0]), 3600.0, false)
    else D.Updated(cfg, DetectorHazard(cfg, claims[..|claims| - 1]), AsReport(claims[|claims| - 1]))
  }

  function DetectorFactor(cfg: D.Config, claims: seq<Claim>, i: nat): real
    requires i < |claims|
  {
    1.0 - claims[i].confidence * cfg.weight(Occurrences(claims[..i], claims[i].source) + 1)
  }

  function DetectorFactors(cfg: D.Config, claims: seq<Claim>): seq<real> {
    seq(|claims|, i requires 0 <= i < |claims| => DetectorFactor(cfg, claims, i))
  }

  /** Factors of independent sources. */
  function Independent(claims: seq<Claim>): seq<real> {
    seq(|claims|, i requires 0 <= i < |claims| => 1.0 - claims[i].confidence)
  }

  lemma {:induction false} DetectorCounts(cfg: D.Config, claims: seq<Claim>, source: string)
    requires claims != []
    ensures D.Count(DetectorHazard(cfg, claims), source) == Occurrences(claims, source)
  {
    var n := |claims| - 1;
    if n == 0 {
      assert claims[..0] == [];
    } else {
      DetectorCounts(cfg, claims[..n], source);
    }
  }

  /** The confidence alone, from the counts of earlier claims. */
  function Believed(cfg: D.Config, claims: seq<Claim>): real
    requires claims != []
  {
    var n := |claims| - 1;
    if n == 0 then Clamp(claims[0].confidence)
    else D.Recomputed(Believed(cfg, claims[..n]), claims[n].confidence,
                      cfg.weight(Occurrences(claims[..n], claims[n].source) + 1))
  }

  lemma {:induction false} DetectorBelieves(cfg: D.Config, claims: seq<Claim>)
    requires claims != []
    ensures DetectorHazard(cfg, claims).confidence == Believed(cfg, claims)
  {
    var n := |claims| - 1;
    if n > 0 {
      DetectorBelieves(cfg, claims[..n]);
      DetectorCounts(cfg, claims[..n], claims[n].source);
      MergedConfidence(cfg, DetectorHazard(cfg, claims[..n]), claims[n]);
    }
  }

  lemma MergedConfidence(cfg: D.Config, h: D.Track, c: Claim)
    ensures D.Updated(cfg, h, AsReport(c)).confidence
            == D.Recomputed(h.confidence, c.confidence, cfg.weight(D.Count(h, c.source) + 1))
  {
  }

  lemma RecomputedDoubt(base: real, confidence: real, weight: real, after: real, factor: real)
    requires 0.0 <= base <= 1.0 && 0.0 <= confidence <= 1.0 && 0.0 <= weight <= 1.0
    requires after == D.Recomputed(base, confidence, weight) && factor == 1.0 - confidence * weight
    ensures 1.0 - after == (1.0 - base) * factor && base <= after <= 1.0
  {
    D.RecomputedInUnit(base, confidence, weight);
    Distributes(confidence * weight, 1.0 - base);
  }

  lemma Distributes(x: real, doubt: real)
    ensures doubt - x * doubt == doubt * (1.0 - x)
  {
  }

  lemma {:induction false} BelievedInUnit(cfg: D.Config, claims: seq<Claim>)
    requires D.WeightsOk(cfg.weight) && claims != [] && ClaimsOk(claims)
    ensures 0.0 <= Believed(cfg, claims) <= 1.0
  {
    var n := |claims| - 1;
    if n > 0 {
      BelievedInUnit(cfg, claims[..n]);
      D.RecomputedInUnit(Believed(cfg, claims[..n]), claims[n].confidence,
                         cfg.weight(Occurrences(claims[..n], claims[n].source) + 1));
    }
  }

  /** Merging the i-th claim multiplies the doubt by its factor. */
  ghost predicate Link(beliefs: seq<real>, factors: seq<real>, i: nat) {
    && i < |beliefs| == |factors|
    && (i == 0 ==> 1.0 - beliefs[0] == factors[0])
    && (i > 0 ==> 1.0 - beliefs[i] == (1.0 - beliefs[i - 1]) * factors[i])
  }

  lemma {:induction false} ChainedDoubt(beliefs: seq<real>, factors: seq<real>, n: nat)
    requires n < |beliefs| == |factors| && forall i: nat {:trigger Link(beliefs, factors, i)} :: i <= n ==>
        Link(beliefs, factors, i)
    ensures 1.0 - beliefs[n] == Product(factors[..n + 1])
  {
    assert factors[..n + 1][..n] == factors[..n];
    assert Link(beliefs, factors, n);
    if n > 0 {
      ChainedDoubt(beliefs, factors, n - 1);
    }
  }

  function Beliefs(cfg: D.Config, claims: seq<Claim>): seq<real> {
    seq(|claims|, i requires 0 <= i < |claims| => Believed(cfg, claims[..i + 1]))
  }

  lemma MergeDoubt(cfg: D.Config, claims: seq<Claim>, i: nat, before: real, after: real, factor: real)
    requires D.WeightsOk(cfg.weight) && ClaimsOk(claims) && 0 < i < |claims|
    requires before == Believed(cfg, claims[..i]) && after == Believed(cfg, claims[..i + 1])
      && factor == DetectorFactor(cfg, claims, i)
    ensures 1.0 - after == (1.0 - before) * factor
  {
    BelievedInUnit(cfg, claims[..i]);
    assert claims[..i + 1][..i] == claims[..i];
    RecomputedDoubt(before, claims[i].confidence, cfg.weight(Occurrences(claims[..i], claims[i].source) + 1), after,
                    factor);
  }

  lemma LinkFrom(beliefs: seq<real>, factors: seq<real>, i: nat, before: real, after: real, factor: real)
    requires 0 < i < |beliefs| == |factors| && beliefs[i] == after && beliefs[i - 1] == before && factors[i] == factor
    requires 1.0 - after == (1.0 - before) * factor
    ensures Link(beliefs, factors, i)
  {
  }

  lemma BeliefsLinked(cfg: D.Config, claims: seq<Claim>, i: nat)
    requires D.WeightsOk(cfg.weight) && ClaimsOk(claims) && 0 < i < |claims|
    ensures Link(Beliefs(cfg, claims), DetectorFactors(cfg, claims), i)
  {
    var before, after, factor := Beliefs(cfg, claims)[i - 1], Beliefs(cfg, claims)[i], DetectorFactors(cfg, claims)[i];
    MergeDoubt(cfg, claims, i, before, after, factor);
    LinkFrom(Beliefs(cfg, claims), DetectorFactors(cfg, claims), i, before, after, factor);
  }

  lemma FirstLinked(cfg: D.Config, claims: seq<Claim>)
    requires D.WeightsOk(cfg.weight) && ClaimsOk(claims) && claims != []
    ensures Link(Beliefs(cfg, claims), DetectorFactors(cfg, claims), 0)
  {
    assert claims[..0] == [] && |claims[..1]| == 1;
    assert Beliefs(cfg, claims)[0] == claims[0].confidence;
    assert DetectorFactors(cfg, claims)[0] == 1.0 - claims[0].confidence * cfg.weight(1);
  }

  lemma AllLinked(cfg: D.Config, claims: seq<Claim>, beliefs: seq<real>, factors: seq<real>)
    requires D.WeightsOk(cfg.weight) && ClaimsOk(claims) && beliefs == Beliefs(cfg, claims)
      && factors == DetectorFactors(cfg, claims)
    ensures forall i: nat {:trigger Link(beliefs, factors, i)} :: i < |claims| ==> Link(beliefs, factors, i)
  {
    forall i: nat | i < |claims|
      ensures Link(beliefs, factors, i)
    {
      if i == 0 {
        FirstLinked(cfg, claims);
      } else {
        BeliefsLinked(cfg, claims, i);
      }
    }
  }

  lemma LastBelief(cfg: D.Config, claims: seq<Claim>)
    requires claims != []
    ensures Beliefs(cfg, claims)[|claims| - 1] == DetectorHazard(cfg, claims).confidence
  {
    assert claims[..|claims|] == claims;
    DetectorBelieves(cfg, claims);
  }

  /** The doubt left is the product of one factor per claim. */
  lemma DetectorDoubt(cfg: D.Config, claims: seq<Claim>)
    requires D.WeightsOk(cfg.weight) && claims != [] && ClaimsOk(claims)
    ensures 1.0 - DetectorHazard(cfg, claims).confidence == Product(DetectorFactors(cfg, claims))
  {
    var beliefs, factors := Beliefs(cfg, claims), DetectorFactors(cfg, claims);
    LastBelief(cfg, claims);
    AllLinked(cfg, claims, beliefs, factors);
    WholeChain(beliefs, factors);
  }

  lemma WholeChain(beliefs: seq<real>, factors: seq<real>)
    requires 0 < |beliefs| == |factors|
    requires forall i: nat {:trigger Link(beliefs, factors, i)} :: i < |beliefs| ==> Link(beliefs, factors, i)
    ensures 1.0 - beliefs[|beliefs| - 1] == Product(factors)
  {
    ChainedDoubt(beliefs, factors, |beliefs| - 1);
    assert factors[..|beliefs|] == factors;
  }

  lemma Discounted(c: real, w: real)
    requires 0.0 <= c <= 1.0 && 0.0 <= w <= 1.0
    ensures 0.0 <= 1.0 - c <= 1.0 - c * w
    ensures w <= 0.5 && 0.0 < c ==> 1.0 - c < 1.0 - c * w
    ensures w == 1.0 || c == 0.0 ==> 1.0 - c == 1.0 - c * w
  {
    D.Shrinks(c, w);
    if w <= 0.5 {
      assert c * w <= c * 0.5;
    }
  }

  lemma DiscountedIff(c: real, w: real, repeated: bool, factor: real)
    requires 0.0 <= c <= 1.0 && 0.0 <= w <= 1.0 && factor == 1.0 - c * w
    requires if repeated then w <= 0.5 else w == 1.0
    ensures 0.0 <= 1.0 - c <= factor
    ensures 1.0 - c < factor <==> repeated && c > 0.0
  {
    Discounted(c, w);
  }

  lemma DetectorFactorAtLeast(cfg: D.Config, claims: seq<Claim>, i: nat)
    requires D.WeightsOk(cfg.weight) && ClaimsOk(claims) && i < |claims|
    ensures 0.0 <= Independent(claims)[i] <= DetectorFactors(cfg, claims)[i]
    ensures Independent(claims)[i] < DetectorFactors(cfg, claims)[i] <==>
        Repeats(claims, i) && claims[i].confidence > 0.0
  {
    var c, w := claims[i].confidence, cfg.weight(Occurrences(claims[..i], claims[i].source) + 1);
    assert if Repeats(claims, i) then w <= 0.5 else w == 1.0;
    DiscountedIff(c, w, Repeats(claims, i), DetectorFactors(cfg, claims)[i]);
  }

  /** Whoever reports, merging removes no more doubt than independent sources with the same confidences would;
      and when no report is certain it removes strictly less exactly when some source repeated itself. */
  lemma RepeatsCountLess(cfg: D.Config, claims: seq<Claim>)
    requires D.WeightsOk(cfg.weight) && claims != [] && ClaimsOk(claims)
    ensures 1.0 - DetectorHazard(cfg, claims).confidence >= Product(Independent(claims))
    ensures (forall i :: 0 <= i < |claims| ==> claims[i].confidence < 1.0) ==>
              (1.0 - DetectorHazard(cfg, claims).confidence > Product(Independent(claims)) <==>
               exists i :: 0 <= i < |claims| && Repeats(claims, i) && claims[i].confidence > 0.0)
  {
    var low, high := Independent(claims), DetectorFactors(cfg, claims);
    DetectorDoubt(cfg, claims);
    forall i | 0 <= i < |claims|
      ensures 0.0 <= low[i] <= high[i]
      ensures low[i] < high[i] <==> Repeats(claims, i) && claims[i].confidence > 0.0
    {
      DetectorFactorAtLeast(cfg, claims, i);
    }
    ProductMonotone(low, high);
    if forall i :: 0 <= i < |claims| ==> claims[i].confidence < 1.0 {
      ProductStrictIff(low, high);
    }
  }

  // ---------------------------------------------------------------- one source, many reports

  /** Doubt after `n` reports from one source: the k-th report multiplies it by `factor(k)`. */
  function SameDoubt(factor: nat -> real, n: nat): real {
    if n == 0 then 1.0 else SameDoubt(factor, n - 1) * factor(n)
  }

  function SameFactor(cfg: D.Config, c: real): nat -> real {
    (k: nat) => 1.0 - c * cfg.weight(k)
  }

  lemma SameFactorsAre(cfg: D.Config, source: string, c: real, n: nat, k: nat)
    requires k < n
    ensures DetectorFactors(cfg, Same(source, c, n))[k] == SameFactor(cfg, c)(k + 1)
  {
    assert Same(source, c, n)[..k] == Same(source, c, k);
    SameOccurs(source, c, k);
  }

  lemma {:induction false} ProductIsSameDoubt(factors: seq<real>, factor: nat -> real)
    requires forall k :: 0 <= k < |factors| ==> factors[k] == factor(k + 1)
    ensures Product(factors) == SameDoubt(factor, |factors|)
  {
    if factors != [] {
      ProductIsSameDoubt(factors[..|factors| - 1], factor);
    }
  }

  lemma SameProduct(cfg: D.Config, source: string, c: real, n: nat)
    ensures Product(DetectorFactors(cfg, Same(source, c, n))) == SameDoubt(SameFactor(cfg, c), n)
  {
    var factors := DetectorFactors(cfg, Same(source, c, n));
    forall k | 0 <= k < n
      ensures factors[k] == SameFactor(cfg, c)(k + 1)
    {
      SameFactorsAre(cfg, source, c, n, k);
    }
    ProductIsSameDoubt(factors, SameFactor(cfg, c));
  }

  lemma SameDoubtIs(cfg: D.Config, source: string, c: real, n: nat)
    requires D.WeightsOk(cfg.weight) && 0.0 <= c <= 1.0 && n > 0
    ensures 1.0 - DetectorHazard(cfg, Same(source, c, n)).confidence == SameDoubt(SameFactor(cfg, c), n)
  {
    var claims := Same(source, c, n);
    DetectorDoubt(cfg, claims);
    SameProduct(cfg, source, c, n);
  }

  /** Each report after the first removes at most a k-th of the doubt. */
  ghost predicate Slow(factor: nat -> real) {
    forall k: nat {:trigger factor(k)} :: k > 1 ==> 0.0 <= 1.0 - factor(k) <= 1.0 / k as real
  }

  lemma TelescopingStep(doubt: real, first: real, x: real, n: nat)
    requires n > 1 && 0.0 <= x <= 1.0 / n as real && doubt * (n - 1) as real >= first && doubt >= 0.0
    ensures doubt * (1.0 - x) * n as real >= first
  {
    var m := n as real;
    assert x * m <= 1.0 by {
      assert 1.0 / m * m == 1.0;
    }
    assert (1.0 - x) * m >= m - 1.0;
    assert doubt * ((1.0 - x) * m) >= doubt * (m - 1.0);
    assert doubt * (1.0 - x) * m == doubt * ((1.0 - x) * m);
  }

  lemma {:induction false} SameDoubtTelescopes(factor: nat -> real, n: nat)
    requires Slow(factor) && n > 0 && 0.0 <= factor(1)
    ensures SameDoubt(factor, n) * n as real >= factor(1) && SameDoubt(factor, n) >= 0.0
  {
    if n == 1 {
      assert SameDoubt(factor, 0) == 1.0;
    } else {
      SameDoubtTelescopes(factor, n - 1);
      UnitQuotient(n);
      Times(0.0, SameDoubt(factor, n - 1), 0.0, factor(n));
      TelescopingStep(SameDoubt(factor, n - 1), factor(1), 1.0 - factor(n), n);
    }
  }

  lemma UnitQuotient(n: nat)
    requires n > 0
    ensures 0.0 < 1.0 / n as real <= 1.0
  {
  }

  lemma SlowAt(c: real, w: real, share: real)
    requires 0.0 <= c <= 1.0 && 0.0 <= w <= share
    ensures 0.0 <= c * w <= share
  {
    Times(c, 1.0, w, share);
  }

  lemma SameFactorIsSlow(cfg: D.Config, maxWeight: real, c: real)
    requires 0.0 <= maxWeight <= 1.0 && cfg.weight == D.SourceWeight(maxWeight) && 0.0 <= c <= 1.0
    ensures Slow(SameFactor(cfg, c)) && SameFactor(cfg, c)(1) == 1.0 - c
  {
    forall k: nat | k > 1
      ensures 0.0 <= 1.0 - SameFactor(cfg, c)(k) <= 1.0 / k as real
    {
      D.Share(maxWeight, k);
      SlowAt(c, cfg.weight(k), 1.0 / k as real);
    }
  }

  lemma AtLeastQuotient(x: real, m: real, y: real)
    requires m > 0.0 && x * m >= y
    ensures x >= y / m
  {
    assert y / m * m == y;
  }

  lemma SameRepeats(source: string, c: real, n: nat)
    requires n >= 2
    ensures Repeats(Same(source, c, n), 1)
  {
    assert Same(source, c, n)[..1] == Same(source, c, 1);
    SameOccurs(source, c, 1);
  }

  lemma {:induction false} CertainLeavesNone(factor: nat -> real, n: nat)
    requires n > 0 && factor(1) == 0.0
    ensures SameDoubt(factor, n) == 0.0
  {
    if n == 1 {
      assert SameDoubt(factor, 0) == 1.0;
    } else {
      CertainLeavesNone(factor, n - 1);
    }
  }

  lemma PowerOfZero(n: nat)
    requires n > 0
    ensures Power(0.0, n) == 0.0
  {
  }

  /** `n` reports from one source leave at least an n-th of the first report's doubt, and at least the doubt that
      `n` independent sources would leave: for two or more reports strictly more, unless they are empty or certain. */
  lemma OneSourceCannotImitateMany(cfg: D.Config, maxWeight: real, source: string, c: real, n: nat)
    requires 0.0 <= maxWeight <= 1.0 && cfg.weight == D.SourceWeight(maxWeight)
    requires 0.0 <= c <= 1.0 && n > 0
    ensures 1.0 - DetectorHazard(cfg, Same(source, c, n)).confidence >= (1.0 - c) / n as real
    ensures 1.0 - DetectorHazard(cfg, Same(source, c, n)).confidence >= Power(1.0 - c, n)
    ensures n >= 2 ==>
              (1.0 - DetectorHazard(cfg, Same(source, c, n)).confidence > Power(1.0 - c, n) <==> 0.0 < c < 1.0)
  {
    D.SourceWeightsOk(maxWeight);
    var doubt := 1.0 - DetectorHazard(cfg, Same(source, c, n)).confidence;
    var factor := SameFactor(cfg, c);
    SameAgainstIndependent(cfg, source, c, n);
    SameDoubtIs(cfg, source, c, n);
    SameFactorIsSlow(cfg, maxWeight, c);
    NthOfFirst(factor, 1.0 - c, n, doubt);
  }

  lemma NthOfFirst(factor: nat -> real, first: real, n: nat, doubt: real)
    requires Slow(factor) && n > 0 && 0.0 <= first == factor(1) && doubt == SameDoubt(factor, n)
    ensures doubt >= first / n as real
  {
    SameDoubtTelescopes(factor, n);
    AtLeastQuotient(doubt, n as real, first);
  }

  lemma SameAgainstIndependent(cfg: D.Config, source: string, c: real, n: nat)
    requires D.WeightsOk(cfg.weight) && 0.0 <= c <= 1.0 && n > 0
    ensures
      var doubt := 1.0 - DetectorHazard(cfg, Same(source, c, n)).confidence;
      && doubt >= Power(1.0 - c, n)
      && (n >= 2 ==> (doubt > Power(1.0 - c, n) <==> 0.0 < c < 1.0))
  {
    var claims := Same(source, c, n);
    RepeatsCountLess(cfg, claims);
    ProductOfEqual(Independent(claims), 1.0 - c);
    if n >= 2 {
      SameRepeats(source, c, n);
    }
    if c == 1.0 {
      SameDoubtIs(cfg, source, c, n);
      assert SameFactor(cfg, c)(1) == 0.0;
      CertainLeavesNone(SameFactor(cfg, c), n);
      PowerOfZero(n);
    }
  }

  // ---------------------------------------------------------------- one source alone still reaches any confidence

  function Harmonic(y: real, n: nat): real {
    if n <= 1 then 0.0 else Harmonic(y, n - 1) + y / n as real
  }

  lemma SmallerShare(y: real, k: nat, n: nat)
    requires 0.0 <= y && 0 < k <= n
    ensures y / n as real <= y / k as real
  {
    var q := y / n as real;
    assert q * n as real == y && 0.0 <= q;
    assert q * k as real <= q * n as real;
  }

  lemma {:induction false} HarmonicBlock(y: real, n: nat, j: nat)
    requires 0.0 <= y && n > 0 && j <= n
    ensures Harmonic(y, n + j) >= Harmonic(y, n) + j as real * (y / (2 * n) as real)
  {
    if j > 0 {
      HarmonicBlock(y, n, j - 1);
      SmallerShare(y, n + j, 2 * n);
    }
  }

  lemma ShareInUnit(y: real, n: nat)
    requires 0.0 <= y <= 1.0 && n > 0
    ensures 0.0 <= y / n as real <= 1.0
  {
    SmallerShare(y, 1, n);
  }

  function Doubled(m: nat): (n: nat)
    ensures n > 0
  {
    if m == 0 then 1 else 2 * Doubled(m - 1)
  }

  /** Each doubling adds at least half a unit. */
  lemma {:induction false} HarmonicGrows(y: real, m: nat)
    requires 0.0 <= y
    ensures Harmonic(y, Doubled(m)) >= m as real * (y / 2.0)
  {
    if m > 0 {
      HarmonicGrows(y, m - 1);
      DoublingAdds(y, Doubled(m - 1));
      OneHalfMore(m, y / 2.0);
    }
  }

  lemma DoublingAdds(y: real, n: nat)
    requires 0.0 <= y && n > 0
    ensures Harmonic(y, 2 * n) >= Harmonic(y, n) + y / 2.0
  {
    HarmonicBlock(y, n, n);
    HalfOf(y, n as real);
  }

  lemma HalfOf(y: real, n: real)
    requires n > 0.0
    ensures n * (y / (2.0 * n)) == y / 2.0
  {
    var q := y / (2.0 * n);
    assert q * (2.0 * n) == y;
  }

  lemma OneHalfMore(m: nat, half: real)
    requires m > 0
    ensures (m - 1) as real * half + half == m as real * half
  {
  }

  lemma ShareShrinks(sum: real, x: real, left: real, more: real)
    requires 0.0 <= sum && 0.0 <= x <= 1.0 && left == 1.0 - x && more == 1.0 + (sum + x)
    ensures 0.0 <= left * more <= 1.0 + sum
  {
    assert left * more == 1.0 + sum - x * sum - x * x;
    Times(0.0, x, 0.0, sum);
    Times(0.0, x, 0.0, x);
    Times(0.0, left, 0.0, more);
  }

  lemma ShrinkStep(doubt: real, left: real, more: real, room: real, whole: real)
    requires 0.0 <= doubt && room == left * more && 0.0 <= room <= whole && doubt * whole <= 1.0
    ensures doubt * left * more <= 1.0
  {
    Times(doubt, doubt, room, whole);
    assert doubt * left * more == doubt * room;
  }

  /** The doubt is at most the inverse of one more than the sum. */
  ghost predicate Bounded(doubt: real, sum: real) {
    0.0 <= doubt && 0.0 <= sum && doubt * (1.0 + sum) <= 1.0
  }

  lemma DoubtStep(doubt: real, sum: real, x: real, left: real, doubt': real, sum': real)
    requires Bounded(doubt, sum) && 0.0 <= x <= 1.0 && left == 1.0 - x && doubt' == doubt * left && sum' == sum + x
    ensures Bounded(doubt', sum')
  {
    ShareShrinks(sum, x, left, 1.0 + (sum + x));
    ShrinkStep(doubt, left, 1.0 + (sum + x), left * (1.0 + (sum + x)), 1.0 + sum);
    Times(0.0, doubt, 0.0, left);
  }

  /** If the k-th report removes a share y/k, the doubt falls like the inverse of the harmonic sum. */
  lemma {:induction false} DoubtTimesSum(factor: nat -> real, y: real, n: nat)
    requires n > 0 && 0.0 <= factor(1) <= 1.0 && 0.0 <= y <= 1.0
    requires forall k: nat {:trigger factor(k)} :: k > 1 ==> factor(k) == 1.0 - y / k as real
    ensures Bounded(SameDoubt(factor, n), Harmonic(y, n))
  {
    if n == 1 {
      assert SameDoubt(factor, 0) == 1.0;
    } else {
      DoubtTimesSum(factor, y, n - 1);
      ShareInUnit(y, n);
      DoubtStep(SameDoubt(factor, n - 1), Harmonic(y, n - 1), y / n as real, factor(n), SameDoubt(factor, n),
                Harmonic(y, n));
    }
  }

  lemma BelowInverse(doubt: real, sum: real, eps: real)
    requires 0.0 < eps && Bounded(doubt, sum) && sum * eps >= 1.0
    ensures doubt <= eps
  {
    assert eps * (1.0 + sum) == eps + sum * eps;
    Cancel(doubt, eps, 1.0 + sum);
  }

  lemma Cancel(a: real, b: real, c: real)
    requires 0.0 < c && a * c <= b * c
    ensures a <= b
  {
    assert a == a * c / c && b == b * c / c;
  }

  /** Reports enough for one source to push the doubt below `eps`. */
  function Enough(y: real, eps: real): (m: nat)
    requires 0.0 < y && 0.0 < eps
    ensures m as real * (y / 2.0) * eps >= 1.0
  {
    var need := 2.0 / (y * eps);
    assert y * eps > 0.0 && need * (y * eps) == 2.0;
    var m := need.Floor + 1;
    assert m as real >= need > 0.0;
    assert m as real * (y * eps) >= need * (y * eps);
    assert m as real * (y / 2.0) * eps == m as real * (y * eps) / 2.0;
    m
  }

  lemma SameFactorShares(cfg: D.Config, maxWeight: real, c: real)
    requires 0.0 <= maxWeight <= 1.0 && cfg.weight == D.SourceWeight(maxWeight) && 0.0 <= c <= 1.0
    ensures forall k: nat {:trigger SameFactor(cfg, c)(k)} :: k > 1 ==>
        SameFactor(cfg, c)(k) == 1.0 - c * maxWeight / k as real
    ensures 0.0 <= SameFactor(cfg, c)(1) <= 1.0 && 0.0 <= c * maxWeight <= 1.0
  {
    D.Shrinks(c, maxWeight);
    forall k: nat | k > 1
      ensures SameFactor(cfg, c)(k) == 1.0 - c * maxWeight / k as real
    {
      assert c * (maxWeight / k as real) == c * maxWeight / k as real;
    }
  }

  /** The cap slows one source down but does not stop it: repeating a report of any positive confidence often
      enough brings the hazard as close to certainty as wanted. */
  lemma OneSourceReachesAnyConfidence(cfg: D.Config, maxWeight: real, source: string, c: real, eps: real)
    returns (n: nat)
    requires 0.0 < maxWeight <= 1.0 && cfg.weight == D.SourceWeight(maxWeight)
    requires 0.0 < c <= 1.0 && 0.0 < eps
    ensures n > 0 && 1.0 - DetectorHazard(cfg, Same(source, c, n)).confidence <= eps
  {
    D.SourceWeightsOk(maxWeight);
    var y := c * maxWeight;
    Times(c, c, maxWeight, maxWeight);
    SameFactorShares(cfg, maxWeight, c);
    n := SharesReach(SameFactor(cfg, c), y, eps);
    SameDoubtIs(cfg, source, c, n);
  }

  lemma SharesReach(factor: nat -> real, y: real, eps: real) returns (n: nat)
    requires 0.0 <= factor(1) <= 1.0 && 0.0 < y <= 1.0 && 0.0 < eps
    requires forall k: nat {:trigger factor(k)} :: k > 1 ==> factor(k) == 1.0 - y / k as real
    ensures n > 0 && SameDoubt(factor, n) <= eps
  {
    var m := Enough(y, eps);
    n := Doubled(m);
    HarmonicReaches(y, m, eps);
    DoubtTimesSum(factor, y, n);
    BelowInverse(SameDoubt(factor, n), Harmonic(y, n), eps);
  }

  lemma HarmonicReaches(y: real, m: nat, eps: real)
    requires 0.0 <= y && 0.0 < eps && m as real * (y / 2.0) * eps >= 1.0
    ensures Harmonic(y, Doubled(m)) * eps >= 1.0
  {
    HarmonicGrows(y, m);
    SumReaches(m as real * (y / 2.0), Harmonic(y, Doubled(m)), eps);
  }

  lemma SumReaches(low: real, sum: real, eps: real)
    requires 0.0 < eps && low <= sum && low * eps >= 1.0
    ensures sum * eps >= 1.0
  {
    assert low * eps <= sum * eps;
  }

  /** One source brings the hazard's doubt down to `eps`. */
  ghost predicate ReachesDoubt(cfg: D.Config, source: string, c: real, eps: real) {
    exists n: nat {:trigger Same(source, c, n)} ::
      n > 0 && 1.0 - DetectorHazard(cfg, Same(source, c, n)).confidence <= eps
  }

  /** One source alone can bring the hazard as close to certainty as wanted. */
  ghost predicate ReachesCertainty(cfg: D.Config, source: string, c: real) {
    forall eps: real {:trigger ReachesDoubt(cfg, source, c, eps)} :: 0.0 < eps ==> ReachesDoubt(cfg, source, c, eps)
  }

  lemma {:induction false} DoubtStays(factor: nat -> real, y: real, n: nat)
    requires n > 0 && y == 0.0
    requires forall k: nat {:trigger factor(k)} :: k > 1 ==> factor(k) == 1.0 - y / k as real
    ensures SameDoubt(factor, n) == factor(1)
  {
    if n == 1 {
      assert SameDoubt(factor, 0) == 1.0;
    } else {
      DoubtStays(factor, y, n - 1);
      assert factor(n) == 1.0;
    }
  }

  /** Without a weight for repetitions, or without confidence, the doubt of the first report stays. */
  lemma WeightlessDoubtStays(cfg: D.Config, maxWeight: real, source: string, c: real, n: nat)
    requires 0.0 <= maxWeight <= 1.0 && cfg.weight == D.SourceWeight(maxWeight)
    requires 0.0 <= c <= 1.0 && (c == 0.0 || maxWeight == 0.0) && n > 0
    ensures 1.0 - DetectorHazard(cfg, Same(source, c, n)).confidence == 1.0 - c
  {
    D.SourceWeightsOk(maxWeight);
    SameFactorShares(cfg, maxWeight, c);
    SameFactorIsSlow(cfg, maxWeight, c);
    ZeroTimes(c, maxWeight);
    DoubtStays(SameFactor(cfg, c), c * maxWeight, n);
    SameDoubtIs(cfg, source, c, n);
  }

  lemma ZeroTimes(a: real, b: real)
    requires a == 0.0 || b == 0.0
    ensures a * b == 0.0
  {
  }

  lemma CertainReportIsEnough(cfg: D.Config, source: string)
    requires D.WeightsOk(cfg.weight)
    ensures 1.0 - DetectorHazard(cfg, Same(source, 1.0, 1)).confidence == 0.0
  {
    SameDoubtIs(cfg, source, 1.0, 1);
    assert SameFactor(cfg, 1.0)(1) == 0.0;
    CertainLeavesNone(SameFactor(cfg, 1.0), 1);
  }

  /** The documented guarantee, that one source alone cannot drive confidence to certainty, fails exactly for certain
      reports and, when repetitions weigh anything at all, for all reports of positive confidence. */
  lemma OneSourceReachesCertaintyIff(cfg: D.Config, maxWeight: real, source: string, c: real)
    requires 0.0 <= maxWeight <= 1.0 && cfg.weight == D.SourceWeight(maxWeight) && 0.0 <= c <= 1.0
    ensures ReachesCertainty(cfg, source, c) <==> c == 1.0 || (c > 0.0 && maxWeight > 0.0)
  {
    D.SourceWeightsOk(maxWeight);
    if c == 1.0 {
      CertainReportIsEnough(cfg, source);
      forall eps: real | 0.0 < eps
        ensures ReachesDoubt(cfg, source, c, eps)
      {
        assert 1.0 - DetectorHazard(cfg, Same(source, c, 1)).confidence <= eps;
      }
    } else if c > 0.0 && maxWeight > 0.0 {
      forall eps: real | 0.0 < eps
        ensures ReachesDoubt(cfg, source, c, eps)
      {
        var n := OneSourceReachesAnyConfidence(cfg, maxWeight, source, c, eps);
      }
    } else {
      forall n: nat | n > 0
        ensures 1.0 - DetectorHazard(cfg, Same(source, c, n)).confidence == 1.0 - c
      {
        WeightlessDoubtStays(cfg, maxWeight, source, c, n);
      }
      assert !ReachesDoubt(cfg, source, c, (1.0 - c) / 2.0);
    }
  }
}
