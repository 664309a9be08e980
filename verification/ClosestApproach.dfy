/** Pairwise collision risk from constant-velocity extrapolation: the clamped closest approach and the tests on it. */
module ClosestApproach {
  import opened Basics

  /** Position and velocity of one actor relative to another, in a local metric plane. */
  datatype Relative = Relative(east: real, north: real, veast: real, vnorth: real)

  function Dot(r: Relative): real {
    r.east * r.veast + r.north * r.vnorth
  }

  function SpeedSquared(r: Relative): real {
    r.veast * r.veast + r.vnorth * r.vnorth
  }

  /** Squared separation at time `t`. */
  function Separation(r: Relative, t: real): real {
    var e, n := r.east + r.veast * t, r.north + r.vnorth * t;
    e * e + n * n
  }

  /** Time of closest approach, clamped to the horizon. */
  function ClosestTime(r: Relative, horizon: real): real
    requires SpeedSquared(r) > 0.0
  {
    MaxReal(0.0, MinReal(horizon, -Dot(r) / SpeedSquared(r)))
  }

  /** `after` exceeds `before`, `u` later, by a square and a slope. */
  ghost predicate Parabola(before: real, after: real, speed: real, u: real, slope: real) {
    after - before == speed * (u * u) + 2.0 * (u * slope)
  }

  lemma SeparationFrom(r: Relative, s: real, t: real)
    ensures Parabola(Separation(r, s), Separation(r, t), SpeedSquared(r), t - s, Dot(r) + SpeedSquared(r) * s)
  {
    AxisFrom(r.east, r.veast, s, t);
    AxisFrom(r.north, r.vnorth, s, t);
    Regroup(r.veast * r.veast, r.vnorth * r.vnorth, r.east * r.veast, r.north * r.vnorth, t - s, s);
  }

  lemma AxisFrom(x: real, v: real, s: real, t: real)
    ensures (x + v * t) * (x + v * t) - (x + v * s) * (x + v * s)
            == v * v * ((t - s) * (t - s)) + 2.0 * ((t - s) * (x * v + v * v * s))
  {
  }

  lemma Regroup(a: real, b: real, c: real, d: real, u: real, s: real)
    ensures a * (u * u) + 2.0 * (u * (c + a * s)) + (b * (u * u) + 2.0 * (u * (d + b * s)))
            == (a + b) * (u * u) + 2.0 * (u * (c + d + (a + b) * s))
  {
  }

  /** The slope at the clamped time: zero inside the horizon, not falling at its start, not rising at its end. */
  lemma SlopeAtClosest(r: Relative, horizon: real)
    requires SpeedSquared(r) > 0.0 && horizon >= 0.0
    ensures
      var s := ClosestTime(r, horizon);
      var slope := Dot(r) + SpeedSquared(r) * s;
      && 0.0 <= s <= horizon
      && (slope == 0.0 || (s == 0.0 && slope >= 0.0) || (s == horizon && slope <= 0.0))
      && (s >= horizon <==> Dot(r) + SpeedSquared(r) * horizon <= 0.0 || horizon == 0.0)
  {
    ClampedRoot(Dot(r), SpeedSquared(r), horizon, -Dot(r) / SpeedSquared(r), ClosestTime(r, horizon));
  }

  lemma ClampedRoot(dot: real, speed: real, horizon: real, free: real, s: real)
    requires speed > 0.0 && horizon >= 0.0 && free == -dot / speed && s == MaxReal(0.0, MinReal(horizon, free))
    ensures 0.0 <= s <= horizon
    ensures dot + speed * s == 0.0 || (s == 0.0 && dot + speed * s >= 0.0) || (s == horizon && dot + speed * s <= 0.0)
    ensures s >= horizon <==> dot + speed * horizon <= 0.0 || horizon == 0.0
  {
    assert speed * free == -dot;
    assert s <= free ==> speed * s <= speed * free;
    assert s >= free ==> speed * s >= speed * free;
    assert horizon <= free ==> speed * horizon <= speed * free;
    assert horizon > free ==> speed * horizon > speed * free;
  }

  /** The clamped closest approach is the true minimiser: at no time of the horizon are the two closer. */
  lemma ClosestIsMinimal(r: Relative, horizon: real, t: real)
    requires SpeedSquared(r) > 0.0 && 0.0 <= t <= horizon
    ensures Separation(r, ClosestTime(r, horizon)) <= Separation(r, t)
  {
    var s := ClosestTime(r, horizon);
    SlopeAtClosest(r, horizon);
    SeparationFrom(r, s, t);
    NotBelow(Separation(r, s), Separation(r, t), SpeedSquared(r), t - s, Dot(r) + SpeedSquared(r) * s, s, horizon);
  }

  lemma NotBelow(before: real, after: real, speed: real, u: real, slope: real, s: real, horizon: real)
    requires Parabola(before, after, speed, u, slope) && speed >= 0.0 && 0.0 <= s + u <= horizon
    requires slope == 0.0 || (s == 0.0 && slope >= 0.0) || (s == horizon && slope <= 0.0)
    ensures before <= after
  {
    assert u * u >= 0.0;
    assert speed * (u * u) >= 0.0;
    assert u * slope >= 0.0;
  }

  // ---------------------------------------------------------------- the pair tests

  datatype Kind = HeadOn | RearEnd | Crossing

  datatype Conflict = Conflict(kind: Kind, time: real, distance: real, severity: real)

  /** `root` is the square root; heading and projection enter through the pair. */
  datatype Policy = Policy(horizon: real, baseClearance: real, minSpeed: real, root: real -> real)

  ghost predicate PolicyOk(policy: Policy) {
    && policy.horizon > 0.0 && policy.baseClearance > 0.0
    && forall x: real {:trigger policy.root(x)} :: x >= 0.0 ==>
        policy.root(x) >= 0.0 && policy.root(x) * policy.root(x) == x
  }

  /** What a pair of states amounts to: ids, relative motion, heading difference, road, uncertainties. */
  datatype Pair = Pair(sameActor: bool, relative: Relative, headingDelta: real, sameRoad: bool, uncertainty: real)

  const MAX_DISTANCE := 75.0
  const LANE_DISTANCE := 18.0

  function Clearance(policy: Policy, p: Pair): real {
    policy.baseClearance + p.uncertainty
  }

  function DistanceAt(policy: Policy, p: Pair, t: real): real {
    policy.root(Separation(p.relative, t))
  }

  predicate Parallel(policy: Policy, p: Pair) {
    p.sameRoad && p.headingDelta <= 30.0 && DistanceAt(policy, p, 0.0) > LANE_DISTANCE
  }

  function Severity(policy: Policy, distance: real, clearance: real, time: real): real
    requires clearance != 0.0 && policy.horizon != 0.0
  {
    Clamp(0.55 * Clamp(1.0 - distance / clearance) + 0.45 * (1.0 - time / policy.horizon))
  }

  /** `evaluate_pair`, in its order of tests. */
  function EvaluatePair(policy: Policy, p: Pair): Option<Conflict>
    requires policy.horizon > 0.0 && policy.baseClearance > 0.0 && p.uncertainty >= 0.0
  {
    if p.sameActor then None
    else if DistanceAt(policy, p, 0.0) > MAX_DISTANCE then None
    else if SpeedSquared(p.relative) <= policy.minSpeed * policy.minSpeed then None
    else
      SpeedPositive(p.relative, policy.minSpeed);
      var time := ClosestTime(p.relative, policy.horizon);
      var distance := DistanceAt(policy, p, time);
      if distance > Clearance(policy, p) || time >= policy.horizon then None
      else if Parallel(policy, p) then None
      else
        var kind := if p.headingDelta >= 150.0 then HeadOn else if p.headingDelta <= 30.0 then RearEnd else Crossing;
        Some(Conflict(kind, time, distance, Severity(policy, distance, Clearance(policy, p), time)))
  }

  lemma SpeedPositive(r: Relative, minSpeed: real)
    requires SpeedSquared(r) > minSpeed * minSpeed
    ensures SpeedSquared(r) > 0.0
  {
    assert minSpeed * minSpeed >= 0.0;
  }

  /** Some time of the horizon finds the two within clearance. */
  ghost predicate ComesClose(policy: Policy, p: Pair) {
    exists t {:trigger DistanceAt(policy, p, t)} ::
        0.0 <= t <= policy.horizon && DistanceAt(policy, p, t) <= policy.baseClearance + p.uncertainty
  }

  /** They are still approaching, or at rest in separation, when the horizon ends. */
  predicate ClosingAtHorizon(policy: Policy, p: Pair) {
    Dot(p.relative) + SpeedSquared(p.relative) * policy.horizon <= 0.0
  }

  lemma SquaresNotNegative(r: Relative, t: real)
    ensures Separation(r, t) >= 0.0
  {
    var e, n := r.east + r.veast * t, r.north + r.vnorth * t;
    assert e * e >= 0.0;
    assert n * n >= 0.0;
  }

  lemma RootsOrdered(a: real, b: real, x: real, y: real)
    requires a >= 0.0 && b >= 0.0 && a * a == x && b * b == y && x <= y
    ensures a <= b
  {
    if a > b {
      SquaresOrdered(b, a);
    }
  }

  lemma SquaresOrdered(a: real, b: real)
    requires 0.0 <= a < b
    ensures a * a < b * b
  {
    ProductPositive(b - a, b + a);
    DifferenceOfSquares(a, b);
  }

  lemma ProductPositive(x: real, y: real)
    requires 0.0 < x && 0.0 < y
    ensures 0.0 < x * y
  {
  }

  lemma DifferenceOfSquares(a: real, b: real)
    ensures (b - a) * (b + a) == b * b - a * a
  {
  }

  /** The reported distance is the least of the horizon. */
  lemma ReportedDistanceIsLeast(policy: Policy, p: Pair, t: real)
    requires PolicyOk(policy) && SpeedSquared(p.relative) > 0.0 && 0.0 <= t <= policy.horizon
    ensures DistanceAt(policy, p, ClosestTime(p.relative, policy.horizon)) <= DistanceAt(policy, p, t)
  {
    var s := ClosestTime(p.relative, policy.horizon);
    ClosestIsMinimal(p.relative, policy.horizon, t);
    SquaresNotNegative(p.relative, s);
    SquaresNotNegative(p.relative, t);
    RootsOrdered(DistanceAt(policy, p, s), DistanceAt(policy, p, t), Separation(p.relative, s),
                 Separation(p.relative, t));
  }

  /** The distance test rejects exactly the pairs that stay beyond clearance for the whole horizon. */
  lemma DistanceTestIff(policy: Policy, p: Pair)
    requires PolicyOk(policy) && SpeedSquared(p.relative) > 0.0
    ensures DistanceAt(policy, p, ClosestTime(p.relative, policy.horizon)) > Clearance(policy, p) <==>
        !ComesClose(policy, p)
  {
    var s := ClosestTime(p.relative, policy.horizon);
    SlopeAtClosest(p.relative, policy.horizon);
    forall t | 0.0 <= t <= policy.horizon
      ensures DistanceAt(policy, p, s) <= DistanceAt(policy, p, t)
    {
      ReportedDistanceIsLeast(policy, p, t);
    }
  }

  /** Exactly when a pair is reported: two actors close enough and moving relative to each other come within
      clearance during the horizon, are no longer closing when it ends, and do not follow each other in lanes. */
  lemma ReportedIff(policy: Policy, p: Pair)
    requires PolicyOk(policy) && p.uncertainty >= 0.0
    ensures EvaluatePair(policy, p).Some? <==>
              && !p.sameActor && DistanceAt(policy, p, 0.0) <= 75.0
              && SpeedSquared(p.relative) > policy.minSpeed * policy.minSpeed
              && ComesClose(policy, p) && !ClosingAtHorizon(policy, p)
              && !(p.sameRoad && p.headingDelta <= 30.0 && DistanceAt(policy, p, 0.0) > 18.0)
  {
    if SpeedSquared(p.relative) > policy.minSpeed * policy.minSpeed {
      SpeedPositive(p.relative, policy.minSpeed);
      TestsIff(policy, p, ClosestTime(p.relative, policy.horizon));
    }
    EvaluatedIff(policy, p);
  }

  lemma EvaluatedIff(policy: Policy, p: Pair)
    requires PolicyOk(policy) && p.uncertainty >= 0.0
    ensures EvaluatePair(policy, p).Some? <==>
              && !p.sameActor && DistanceAt(policy, p, 0.0) <= MAX_DISTANCE
              && SpeedSquared(p.relative) > policy.minSpeed * policy.minSpeed
              && (SpeedPositive(p.relative, policy.minSpeed);
                  var time := ClosestTime(p.relative, policy.horizon);
                  DistanceAt(policy, p, time) <= Clearance(policy, p) && time < policy.horizon)
              && !Parallel(policy, p)
  {
  }

  lemma TestsIff(policy: Policy, p: Pair, time: real)
    requires PolicyOk(policy) && SpeedSquared(p.relative) > 0.0 && time == ClosestTime(p.relative, policy.horizon)
    ensures DistanceAt(policy, p, time) > Clearance(policy, p) <==> !ComesClose(policy, p)
    ensures time >= policy.horizon <==> ClosingAtHorizon(policy, p)
  {
    DistanceTestIff(policy, p);
    SlopeAtClosest(p.relative, policy.horizon);
  }

  /** A reported distance is that of the reported time, and the least of the whole horizon. */
  lemma ReportIsClosest(policy: Policy, p: Pair, t: real)
    requires PolicyOk(policy) && p.uncertainty >= 0.0 && EvaluatePair(policy, p).Some? && 0.0 <= t <= policy.horizon
    ensures
      var c := EvaluatePair(policy, p).value;
      0.0 <= c.time < policy.horizon && c.distance == DistanceAt(policy, p, c.time)
          && c.distance <= DistanceAt(policy, p, t)
  {
    SpeedPositive(p.relative, policy.minSpeed);
    ReportedDistanceIsLeast(policy, p, t);
  }

  /** A head-on pair that is within clearance well before the horizon ends, but still closing when it does, is not
      reported. */
  lemma ClosingPairIsMissed(policy: Policy, p: Pair)
    requires PolicyOk(policy) && policy.horizon == 9.5 && policy.baseClearance == 3.5 && policy.minSpeed == 0.1
    requires p == Pair(false, Relative(20.0, 0.0, -2.0, 0.0), 180.0, false, 0.0)
    ensures DistanceAt(policy, p, 9.0) == 2.0 && ComesClose(policy, p) && EvaluatePair(policy, p).None?
  {
    assert Separation(p.relative, 9.0) == 4.0;
    RootsOrdered(policy.root(4.0), 2.0, 4.0, 4.0);
    RootsOrdered(2.0, policy.root(4.0), 4.0, 4.0);
    assert ClosingAtHorizon(policy, p);
    ReportedIff(policy, p);
  }

  /** A report is head-on from a heading difference of 150 degrees on, rear-end up to 30, and otherwise crossing. */
  lemma ReportedKindIff(policy: Policy, p: Pair)
    requires PolicyOk(policy) && p.uncertainty >= 0.0 && EvaluatePair(policy, p).Some?
    ensures
      var kind := EvaluatePair(policy, p).value.kind;
      && (kind.HeadOn? <==> p.headingDelta >= 150.0) && (kind.RearEnd? <==> p.headingDelta <= 30.0)
      && (kind.Crossing? <==> 30.0 < p.headingDelta < 150.0)
  {
    SpeedPositive(p.relative, policy.minSpeed);
  }

  /** Its severity starts at one and loses up to 55 parts in a hundred with the distance as a share of the clearance,
      and up to 45 with the time as a share of the horizon. */
  lemma ReportedSeverityIs(policy: Policy, p: Pair)
    requires PolicyOk(policy) && p.uncertainty >= 0.0 && EvaluatePair(policy, p).Some?
    ensures
      var c := EvaluatePair(policy, p).value;
      c.severity ==
      1.0 - 0.55 * (c.distance / (policy.baseClearance + p.uncertainty)) - 0.45 * (c.time / policy.horizon)
  {
    SpeedPositive(p.relative, policy.minSpeed);
    ReportIsClosest(policy, p, 0.0);
    var c := EvaluatePair(policy, p).value;
    SquaresNotNegative(p.relative, c.time);
    SeverityIs(policy, c.distance, policy.baseClearance + p.uncertainty, c.time);
  }

  lemma SeverityIs(policy: Policy, distance: real, clearance: real, time: real)
    requires policy.horizon > 0.0 && clearance > 0.0 && 0.0 <= distance <= clearance && 0.0 <= time <= policy.horizon
    ensures Severity(policy, distance, clearance, time) ==
            1.0 - 0.55 * (distance / clearance) - 0.45 * (time / policy.horizon)
  {
    ShareInUnit(distance, clearance);
    ShareInUnit(time, policy.horizon);
  }

  lemma ShareInUnit(x: real, whole: real)
    requires whole > 0.0 && 0.0 <= x <= whole
    ensures 0.0 <= x / whole <= 1.0
  {
    assert x / whole * whole == x;
  }

  lemma QuotientGrows(x: real, y: real, d: real)
    requires 0.0 < d && x <= y
    ensures x / d <= y / d
  {
  }

  /** Severity lies in [0, 1] and falls with distance and with time. */
  lemma SeverityFalls(policy: Policy, clearance: real, near: real, far: real, soon: real, late: real)
    requires policy.horizon > 0.0 && clearance > 0.0 && near <= far && soon <= late
    ensures 0.0 <= Severity(policy, far, clearance, late) <= Severity(policy, near, clearance, soon) <= 1.0
  {
    QuotientGrows(near, far, clearance);
    QuotientGrows(soon, late, policy.horizon);
  }

  // ---------------------------------------------------------------- all pairs

  datatype Duo = Duo(first: nat, second: nat)

  /** The pairs of one actor with those after it, then of the next. */
  function PairsOf(i: nat, from: nat, n: nat): seq<Duo>
    decreases n - from
  {
    if from >= n then [] else [Duo(i, from)] + PairsOf(i, from + 1, n)
  }

  function PairsFrom(i: nat, n: nat): seq<Duo>
    decreases n - i
  {
    if i >= n then [] else PairsOf(i, i + 1, n) + PairsFrom(i + 1, n)
  }

  function Found<R>(check: Duo -> Option<R>, pairs: seq<Duo>): seq<R> {
    if pairs == [] then [] else Hit(check(pairs[0])) + Found(check, pairs[1..])
  }

  function Hit<R>(found: Option<R>): seq<R> {
    if found.Some? then [found.value] else []
  }

  lemma {:induction false} PairsOfAre(i: nat, from: nat, n: nat)
    ensures |PairsOf(i, from, n)| == if from < n then n - from else 0
    ensures forall k :: 0 <= k < |PairsOf(i, from, n)| ==> PairsOf(i, from, n)[k] == Duo(i, from + k)
    decreases n - from
  {
    if from < n {
      PairsOfAre(i, from + 1, n);
    }
  }

  predicate Earlier(a: Duo, b: Duo) {
    a.first < b.first || (a.first == b.first && a.second < b.second)
  }

  /** Every two actors are paired exactly once, in order. */
  lemma {:induction false} PairsCoverOnce(i: nat, n: nat)
    ensures forall p :: p in PairsFrom(i, n) <==> i <= p.first < p.second < n
    ensures forall k, l :: 0 <= k < l < |PairsFrom(i, n)| ==> Earlier(PairsFrom(i, n)[k], PairsFrom(i, n)[l])
    decreases n - i
  {
    if i < n {
      var row, rest := PairsOf(i, i + 1, n), PairsFrom(i + 1, n);
      PairsOfAre(i, i + 1, n);
      PairsCoverOnce(i + 1, n);
      forall p: Duo
        ensures p in row <==> p.first == i && i < p.second < n
      {
        if p.first == i && i < p.second < n {
          assert row[p.second - i - 1] == p;
        }
      }
      forall k, l | 0 <= k < l < |row + rest|
        ensures Earlier((row + rest)[k], (row + rest)[l])
      {
        if k < |row| <= l {
          assert rest[l - |row|] in rest;
        }
      }
    }
  }

  lemma {:induction false} FoundConcat<R>(check: Duo -> Option<R>, a: seq<Duo>, b: seq<Duo>)
    ensures Found(check, a + b) == Found(check, a) + Found(check, b)
  {
    if a == [] {
      assert a + b == b;
    } else {
      FoundConcat(check, a[1..], b);
      assert (a + b)[1..] == a[1..] + b;
      ConcatAssociates(Hit(check(a[0])), Found(check, a[1..]), Found(check, b));
    }
  }

  /** `evaluate_all`: the conflicts of every two actors, each pair checked once, in order; `check` evaluates the
      states at two places of the list. */
  method EvaluateAll<R>(n: nat, check: Duo -> Option<R>) returns (risks: seq<R>)
    ensures risks == Found(check, PairsFrom(0, n))
  {
    risks := [];
    for i := 0 to n
      invariant Found(check, PairsFrom(0, n)) == risks + Found(check, PairsFrom(i, n))
    {
      var row := EvaluateRow(n, check, i);
      FoundConcat(check, PairsOf(i, i + 1, n), PairsFrom(i + 1, n));
      risks := risks + row;
    }
  }

  /** One actor against those after it. */
  method EvaluateRow<R>(n: nat, check: Duo -> Option<R>, i: nat) returns (risks: seq<R>)
    requires i < n
    ensures risks == Found(check, PairsOf(i, i + 1, n))
  {
    risks := [];
    for j := i + 1 to n
      invariant Found(check, PairsOf(i, i + 1, n)) == risks + Found(check, PairsOf(i, j, n))
    {
      assert PairsOf(i, j, n)[1..] == PairsOf(i, j + 1, n);
      var risk := check(Duo(i, j));
      if risk.Some? {
        risks := risks + [risk.value];
      }
    }
  }
}
