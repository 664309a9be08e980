/** The great-circle distance, and where the hazard grid's window covers its surroundings under it. */
module GreatCircle {
  import opened Basics
  import opened Hazards
  import opened HazardIndex

  /** The functions the distance is made of, of angles in degrees: the haversine, the cosine, and the distance that
      belongs to a haversine. */
  datatype Sphere = Sphere(hav: real -> real, cos: real -> real, arc: real -> real)

  /** The haversine of the angle between two positions, as seen from the centre. */
  function Angle(s: Sphere, p: Position, q: Position): real {
    s.hav(q.lat - p.lat) + s.cos(p.lat) * s.cos(q.lat) * s.hav(q.lon - p.lon)
  }

  function Distance(s: Sphere): Metric {
    (p: Position, q: Position) => s.arc(Angle(s, p, q))
  }

  /** Metres per degree of a great circle, for an earth of radius 6371 km: 111194.926... */
  ghost predicate DegreeOk(degree: real) {
    111194.0 < degree < 111195.0
  }

  /** The shorter way round. */
  function Turn(x: real): real {
    if AbsReal(x) <= 180.0 then AbsReal(x) else 360.0 - AbsReal(x)
  }

  ghost predicate TurnsRound(s: Sphere, x: real) {
    s.hav(x) == s.hav(Turn(x))
  }

  ghost predicate Rises(s: Sphere, x: real, y: real) {
    s.hav(x) < s.hav(y)
  }

  ghost predicate NearlyQuadratic(s: Sphere, x: real, y: real) {
    0.999 * s.hav(x) * (y * y) <= s.hav(y) * (x * x) <= s.hav(x) * (y * y)
  }

  ghost predicate Mirrors(s: Sphere, x: real) {
    s.cos(x) == s.cos(AbsReal(x))
  }

  ghost predicate Falls(s: Sphere, x: real, y: real) {
    s.cos(y) <= s.cos(x)
  }

  /** Facts of the haversine: it depends on the shorter way round, rises up to the antipode, and is nearly quadratic
      up to a degree. */
  ghost predicate HavOk(s: Sphere) {
    && s.hav(0.0) == 0.0
    && (forall x {:trigger TurnsRound(s, x)} :: -360.0 <= x <= 360.0 ==> TurnsRound(s, x))
    && (forall x, y {:trigger Rises(s, x, y)} :: 0.0 <= x < y <= 180.0 ==> Rises(s, x, y))
    && (forall x, y {:trigger NearlyQuadratic(s, x, y)} :: 0.0 < x <= y <= 1.0 ==> NearlyQuadratic(s, x, y))
  }

  /** Facts of the cosine: even, falling from 0 to 90 degrees, and a few values. */
  ghost predicate CosOk(s: Sphere) {
    && (forall x {:trigger Mirrors(s, x)} :: Mirrors(s, x))
    && (forall x, y {:trigger Falls(s, x, y)} :: 0.0 <= x <= y <= 90.0 ==> Falls(s, x, y))
    && s.cos(90.0) == 0.0 && s.cos(60.0) == 0.5 && s.cos(61.0) >= 0.48 && s.cos(80.0) <= 0.174
  }

  /** Larger haversines belong to larger distances, and that of an angle belongs to its arc. Beyond 1, where no two
      positions lie, the function is continued in any increasing way. */
  ghost predicate ArcOk(s: Sphere, degree: real) {
    && (forall x, y {:trigger s.arc(x), s.arc(y)} :: 0.0 <= x < y ==> s.arc(x) < s.arc(y))
    && forall x {:trigger s.arc(s.hav(x))} :: 0.0 <= x <= 180.0 ==> s.arc(s.hav(x)) == degree * x
  }

  ghost predicate Ok(s: Sphere, degree: real) {
    DegreeOk(degree) && HavOk(s) && CosOk(s) && ArcOk(s, degree)
  }

  // ---------------------------------------------------------------- angles

  lemma HavTurns(s: Sphere, x: real)
    requires HavOk(s) && -360.0 <= x <= 360.0
    ensures s.hav(x) == s.hav(Turn(x)) && s.hav(x) >= 0.0
  {
    assert TurnsRound(s, x);
    if Turn(x) > 0.0 {
      assert Rises(s, 0.0, Turn(x));
    }
  }

  /** A turn with a smaller haversine is smaller. */
  lemma HavOrders(s: Sphere, x: real, y: real)
    requires HavOk(s) && 0.0 <= x <= 180.0 && 0.0 <= y <= 180.0 && s.hav(x) <= s.hav(y)
    ensures x <= y
  {
    assert y < x ==> Rises(s, y, x);
  }

  lemma CosOrders(s: Sphere, x: real, limit: real)
    requires CosOk(s) && limit <= 90.0 && AbsReal(x) <= limit
    ensures s.cos(x) >= s.cos(limit) >= 0.0
  {
    assert Mirrors(s, x) && Falls(s, AbsReal(x), limit) && Falls(s, limit, 90.0);
  }

  lemma TimesMonotone(a: real, b: real, c: real)
    requires 0.0 <= a && b <= c
    ensures a * b <= a * c && b * a <= c * a
  {
  }

  lemma TimesAtLeast(a: real, b: real, c: real, d: real)
    requires 0.0 <= c <= a && 0.0 <= d <= b
    ensures 0.0 <= c * d <= a * b
  {
    TimesMonotone(d, c, a);
    TimesMonotone(a, d, b);
  }

  lemma ArcOrders(s: Sphere, degree: real, angle: real, turn: real)
    requires ArcOk(s, degree) && angle >= 0.0 && s.hav(turn) >= 0.0 && 0.0 <= turn <= 180.0
    ensures s.arc(angle) <= degree * turn <==> angle <= s.hav(turn)
  {
    assert s.arc(s.hav(turn)) == degree * turn;
  }

  /** Both terms of the angle are non-negative. */
  lemma AngleTerms(s: Sphere, p: Position, q: Position)
    requires HavOk(s) && CosOk(s) && OnGlobe(p) && OnGlobe(q)
    ensures s.hav(q.lat - p.lat) >= 0.0 && s.cos(p.lat) * s.cos(q.lat) >= 0.0 && s.hav(q.lon - p.lon) >= 0.0
    ensures s.cos(p.lat) * s.cos(q.lat) * s.hav(q.lon - p.lon) >= 0.0
  {
    HavTurns(s, q.lat - p.lat);
    HavTurns(s, q.lon - p.lon);
    CosOrders(s, p.lat, 90.0);
    CosOrders(s, q.lat, 90.0);
    TimesAtLeast(s.cos(p.lat), s.cos(q.lat), 0.0, 0.0);
    TimesAtLeast(s.cos(p.lat) * s.cos(q.lat), s.hav(q.lon - p.lon), 0.0, 0.0);
  }

  /** Within a distance means within its haversine. */
  lemma WithinIff(s: Sphere, degree: real, p: Position, q: Position, turn: real)
    requires Ok(s, degree) && OnGlobe(p) && OnGlobe(q) && 0.0 <= turn <= 180.0
    ensures Distance(s)(p, q) <= degree * turn <==> Angle(s, p, q) <= s.hav(turn)
  {
    AngleTerms(s, p, q);
    HavTurns(s, turn);
    ArcOrders(s, degree, Angle(s, p, q), turn);
  }

  // ---------------------------------------------------------------- fifty metres

  /** The angle of fifty metres. */
  function Fifty(degree: real): real
    requires DegreeOk(degree)
  {
    50.0 / degree
  }

  lemma FiftyIs(degree: real)
    requires DegreeOk(degree)
    ensures degree * Fifty(degree) == 50.0
    ensures 0.000449 < Fifty(degree) < 0.00045
    ensures 0.0000002021 < Fifty(degree) * Fifty(degree) < 0.0000002022
  {
    var f := Fifty(degree);
    assert 0.00044966 < f < 0.00044967;
  }

  /** A thousandth of a degree weighs more than four and a sixth times fifty metres. */
  lemma CellOutweighs(s: Sphere, fifty: real)
    requires HavOk(s) && 0.000449 < fifty < 0.00045 && fifty * fifty < 0.0000002022
    ensures s.hav(0.001) * 0.24 > s.hav(fifty)
  {
    var (h, f, sq) := (s.hav(0.001), s.hav(fifty), fifty * fifty);
    assert NearlyQuadratic(s, fifty, 0.001) && Rises(s, 0.0, fifty) && Rises(s, 0.0, 0.001);
    assert 0.999 * f * 0.000001 <= h * sq;
    TimesMonotone(h, sq, 0.0000002022);
  }

  /** Within fifty metres of a position up to 60 degrees of latitude neither coordinate is off by more than a
      thousandth of a degree, but for the way round the antimeridian. */
  lemma FiftyMetresAreNear(s: Sphere, degree: real, p: Position, q: Position)
    requires Ok(s, degree) && OnGlobe(p) && OnGlobe(q) && AbsReal(p.lat) <= 60.0 && Distance(s)(p, q) <= 50.0
    ensures AbsReal(q.lat - p.lat) <= 0.001 && Turn(q.lon - p.lon) <= 0.001
  {
    var fifty := Fifty(degree);
    FiftyIs(degree);
    WithinIff(s, degree, p, q, fifty);
    AngleTerms(s, p, q);
    HavTurns(s, q.lat - p.lat);
    HavOrders(s, Turn(q.lat - p.lat), fifty);
    EastWest(s, p, q, s.hav(fifty));
    CellOutweighs(s, fifty);
    HavTurns(s, q.lon - p.lon);
    HavOrders(s, Turn(q.lon - p.lon), 0.001);
  }

  lemma EastWest(s: Sphere, p: Position, q: Position, limit: real)
    requires HavOk(s) && CosOk(s) && OnGlobe(p) && OnGlobe(q) && AbsReal(p.lat) <= 60.0
      && AbsReal(q.lat - p.lat) <= 0.001
    requires Angle(s, p, q) <= limit
    ensures 0.24 * s.hav(q.lon - p.lon) <= limit
  {
    AngleTerms(s, p, q);
    CosOrders(s, p.lat, 60.0);
    CosOrders(s, q.lat, 61.0);
    TimesAtLeast(s.cos(p.lat), s.cos(q.lat), 0.5, 0.48);
    TimesMonotone(s.hav(q.lon - p.lon), 0.24, s.cos(p.lat) * s.cos(q.lat));
  }

  /** With cells of a thousandth of a degree, queries of 50 m are exact up to 60 degrees of latitude, away from the
      antimeridian. */
  lemma FiftyMetresCoveredToSixtyDegrees(s: Sphere, degree: real, p: Position)
    requires Ok(s, degree) && AbsReal(p.lat) <= 60.0 && AbsReal(p.lon) <= 179.0
    ensures Covered(Distance(s), 0.001, p, 50.0) && AlwaysExact(Distance(s), 0.001, p, 50.0)
  {
    assert Span(50.0, 0.001) == 1;
    forall q: Position | OnGlobe(q) && Distance(s)(p, q) <= 50.0
      ensures InWindow(CellAt(p, 0.001), Span(50.0, 0.001), CellAt(q, 0.001))
    {
      FiftyMetresAreNear(s, degree, p, q);
      NearIsInWindow(0.001, 1, 0.001, p, q);
    }
    QueriesAreExactIff(Distance(s), 0.001, p, 50.0);
  }

  // ---------------------------------------------------------------- where the window falls short

  /** At 80 degrees of latitude a hazard in range lies two columns away: the window is not widened east-west. */
  lemma FarNorthMiss(s: Sphere, degree: real, h: Hazard)
    requires Ok(s, degree) && h.position == Position(80.0, 10.0021)
    ensures Distance(s)(Position(80.0, 10.0), h.position) <= 50.0
    ensures !ExactAfter([Insert("h", h)], Distance(s), 0.001, Position(80.0, 10.0), 50.0, None)
  {
    var p, fifty := Position(80.0, 10.0), Fifty(degree);
    FiftyIs(degree);
    TwoCellsFarNorth(s, fifty);
    WithinIff(s, degree, p, h.position, fifty);
    assert Span(50.0, 0.001) == 1;
    assert CellAt(p, 0.001).col == 10000 && CellAt(h.position, 0.001).col == 10002;
    OutsideIsMissed(h, Distance(s), 0.001, p, 50.0);
  }

  lemma TwoCellsFarNorth(s: Sphere, fifty: real)
    requires HavOk(s) && CosOk(s) && 0.000449 < fifty < 0.00045 && fifty * fifty > 0.0000002021
    ensures s.cos(80.0) * s.cos(80.0) * s.hav(0.0021) <= s.hav(fifty)
  {
    var (c, h, f, sq) := (s.cos(80.0), s.hav(0.0021), s.hav(fifty), fifty * fifty);
    assert NearlyQuadratic(s, fifty, 0.0021) && Rises(s, 0.0, fifty) && Rises(s, 0.0, 0.0021);
    assert h * sq <= f * 0.00000441;
    TimesMonotone(h, 0.0000002021, sq);
    CosOrders(s, 80.0, 80.0);
    TimesAtLeast(0.174, 0.174, c, c);
    TimesMonotone(h, c * c, 0.030276);
  }

  /** Across the antimeridian the query misses a hazard at no distance at all. */
  lemma AntimeridianMiss(s: Sphere, degree: real, h: Hazard)
    requires Ok(s, degree) && h.position == Position(0.0, -180.0)
    ensures Distance(s)(Position(0.0, 180.0), h.position) == 0.0
    ensures !ExactAfter([Insert("h", h)], Distance(s), 0.001, Position(0.0, 180.0), 50.0, None)
  {
    var p := Position(0.0, 180.0);
    HavTurns(s, -360.0);
    assert Angle(s, p, h.position) == 0.0;
    assert s.arc(s.hav(0.0)) == degree * 0.0;
    assert Span(50.0, 0.001) == 1;
    assert CellAt(p, 0.001).col == 180000 && CellAt(h.position, 0.001).col == -180000;
    OutsideIsMissed(h, Distance(s), 0.001, p, 50.0);
  }
}
