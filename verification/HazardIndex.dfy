/** The grid index over hazard positions: buckets by cell, and the cell each hazard was put in. */
module HazardIndex {
  import opened Basics
  import opened Hazards

  datatype Cell = Cell(row: int, col: int)

  datatype Index = Index(grid: map<Cell, seq<string>>, cellOf: map<string, Cell>)

  const EMPTY_INDEX := Index(map[], map[])

  function Bucket(ix: Index, c: Cell): seq<string> {
    if c in ix.grid then ix.grid[c] else []
  }

  function CellAt(p: Position, size: real): Cell
    requires size > 0.0
  {
    Cell((p.lat / size).Floor, (p.lon / size).Floor)
  }

  function Ceil(x: real): int {
    -((-x).Floor)
  }

  const METRES_PER_DEGREE := 111000.0

  /** Cells to look at on either side of the centre. */
  function Span(radius: real, size: real): (span: nat)
    requires size > 0.0
    ensures 1 <= span && radius / METRES_PER_DEGREE / size <= span as real
  {
    var n := Ceil(radius / METRES_PER_DEGREE / size);
    if n < 1 then 1 else n
  }

  // ---------------------------------------------------------------- steps

  function Take(ix: Index, id: string): Index {
    if id in ix.cellOf then
      var c := ix.cellOf[id];
      var bucket := Without(Bucket(ix, c), id);
      Index(if bucket == [] then ix.grid - {c} else ix.grid[c := bucket], ix.cellOf - {id})
    else ix
  }

  function Place(ix: Index, id: string, c: Cell): Index {
    var rest := Take(ix, id);
    Index(rest.grid[c := Bucket(rest, c) + [id]], rest.cellOf[id := c])
  }

  /** Every bucket is non-empty, repeats nothing, and holds exactly the hazards put in its cell. */
  ghost predicate Valid(ix: Index) {
    && (forall c :: c in ix.grid ==> ix.grid[c] != [])
    && (forall c {:trigger Bucket(ix, c)} :: Distinct(Bucket(ix, c)))
    && (forall c, id {:trigger InBucket(ix, c, id)} :: InBucket(ix, c, id) <==> id in ix.cellOf && ix.cellOf[id] == c)
  }

  ghost predicate InBucket(ix: Index, c: Cell, id: string) {
    id in Bucket(ix, c)
  }

  lemma TakeKeepsValid(ix: Index, id: string)
    requires Valid(ix)
    ensures Valid(Take(ix, id)) && Take(ix, id).cellOf == ix.cellOf - {id}
  {
    if id in ix.cellOf {
      var c := ix.cellOf[id];
      var r := Take(ix, id);
      assert InBucket(ix, c, id) && Distinct(Bucket(ix, c));
      WithoutMembers(Bucket(ix, c), id);
      forall c', id'
        ensures InBucket(r, c', id') <==> InBucket(ix, c', id') && id' != id
      {
        assert InBucket(ix, c', id) ==> c' == c;
        assert c' != c ==> Bucket(r, c') == Bucket(ix, c');
        assert Bucket(r, c) == Without(Bucket(ix, c), id);
      }
      forall c'
        ensures Distinct(Bucket(r, c'))
      {
        assert Distinct(Bucket(ix, c'));
      }
    }
  }

  lemma PlaceKeepsValid(ix: Index, id: string, c: Cell)
    requires Valid(ix)
    ensures Valid(Place(ix, id, c)) && Place(ix, id, c).cellOf == ix.cellOf[id := c]
  {
    var rest, r := Take(ix, id), Place(ix, id, c);
    TakeKeepsValid(ix, id);
    assert !InBucket(rest, c, id) && Distinct(Bucket(rest, c));
    forall c', id'
      ensures InBucket(r, c', id') <==> InBucket(rest, c', id') || (c' == c && id' == id)
    {
      assert c' != c ==> Bucket(r, c') == Bucket(rest, c');
    }
    forall c'
      ensures Distinct(Bucket(r, c'))
    {
      assert Distinct(Bucket(rest, c'));
    }
  }

  // ---------------------------------------------------------------- queries

  /** A row of `n` cells starting at `from`. */
  function RowCells(row: int, from: int, n: nat): seq<Cell> {
    if n == 0 then [] else RowCells(row, from, n - 1) + [Cell(row, from + n - 1)]
  }

  /** `m` full rows of the window around the centre, from its first row. */
  function WindowCells(centre: Cell, span: nat, m: nat): seq<Cell> {
    if m == 0 then []
    else WindowCells(centre, span, m - 1) + RowCells(centre.row - span + m - 1, centre.col - span, 2 * span + 1)
  }

  function Collect(ix: Index, cells: seq<Cell>, keep: set<string>): seq<string> {
    if cells == [] then []
    else Collect(ix, cells[..|cells| - 1], keep) + Only(Bucket(ix, cells[|cells| - 1]), keep)
  }

  predicate Matches(objects: Objects, id: string, metric: Metric, p: Position, radius: real,
                    wanted: Option<HazardType>) {
    && id in objects
    && (wanted.Some? ==> objects[id].hazardType == wanted.value)
    && metric(p, objects[id].position) <= radius
  }

  function Matching(ids: set<string>, objects: Objects, metric: Metric, p: Position, radius: real,
                    wanted: Option<HazardType>): set<string> {
    set id | id in ids && Matches(objects, id, metric, p, radius, wanted)
  }

  /** The result of `query_nearby`, in its order. */
  function Nearby(ix: Index, objects: Objects, metric: Metric, size: real, p: Position, radius: real,
                  wanted: Option<HazardType>): seq<string>
    requires size > 0.0
  {
    var span := Span(radius, size);
    Collect(ix, WindowCells(CellAt(p, size), span, 2 * span + 1),
            Matching(ix.cellOf.Keys, objects, metric, p, radius, wanted))
  }

  predicate InWindow(centre: Cell, span: nat, c: Cell) {
    centre.row - span <= c.row <= centre.row + span && centre.col - span <= c.col <= centre.col + span
  }

  lemma {:induction false} RowCellsAre(row: int, from: int, n: nat)
    ensures Distinct(RowCells(row, from, n))
    ensures forall c :: c in RowCells(row, from, n) <==> c.row == row && from <= c.col < from + n
  {
    if n > 0 {
      RowCellsAre(row, from, n - 1);
      assert Cell(row, from + n - 1) !in RowCells(row, from, n - 1);
    }
  }

  lemma {:induction false} WindowCellsAre(centre: Cell, span: nat, m: nat)
    ensures Distinct(WindowCells(centre, span, m))
    ensures forall c :: c in WindowCells(centre, span, m) <==>
              centre.row - span <= c.row < centre.row - span + m && centre.col - span <= c.col <= centre.col + span
  {
    if m > 0 {
      WindowCellsAre(centre, span, m - 1);
      var before, row := WindowCells(centre, span, m - 1),
          RowCells(centre.row - span + m - 1, centre.col - span, 2 * span + 1);
      RowCellsAre(centre.row - span + m - 1, centre.col - span, 2 * span + 1);
      forall i, j | 0 <= i < j < |before + row|
        ensures (before + row)[i] != (before + row)[j]
      {
        assert i < |before| ==> before[i] in before;
        assert j >= |before| ==> row[j - |before|] in row;
      }
    }
  }

  /** Collecting from distinct cells returns every kept hazard of those cells once. */
  lemma {:induction false} CollectIs(ix: Index, cells: seq<Cell>, keep: set<string>)
    requires Valid(ix) && Distinct(cells)
    ensures Distinct(Collect(ix, cells, keep))
    ensures forall id :: id in Collect(ix, cells, keep) <==> id in keep && id in ix.cellOf && ix.cellOf[id] in cells
  {
    if cells != [] {
      var n := |cells| - 1;
      var before, more := Collect(ix, cells[..n], keep), Only(Bucket(ix, cells[n]), keep);
      CollectIs(ix, cells[..n], keep);
      OnlyMembers(Bucket(ix, cells[n]), keep);
      assert cells == cells[..n] + [cells[n]] && cells[n] !in cells[..n];
      forall id
        ensures id in more <==> id in keep && id in ix.cellOf && ix.cellOf[id] == cells[n]
      {
        assert id in Bucket(ix, cells[n]) <==> InBucket(ix, cells[n], id);
      }
      forall i, j | 0 <= i < j < |before + more|
        ensures (before + more)[i] != (before + more)[j]
      {
        assert i < |before| ==> before[i] in before;
        assert j >= |before| ==> more[j - |before|] in more;
      }
    }
  }

  lemma WindowIs(ix: Index, centre: Cell, span: nat, keep: set<string>)
    requires Valid(ix)
    ensures
      var r := Collect(ix, WindowCells(centre, span, 2 * span + 1), keep);
      && Distinct(r)
      && forall id :: id in r <==> id in keep && id in ix.cellOf && InWindow(centre, span, ix.cellOf[id])
  {
    WindowCellsAre(centre, span, 2 * span + 1);
    CollectIs(ix, WindowCells(centre, span, 2 * span + 1), keep);
  }

  /** A query returns each matching hazard of the window once, and nothing else. */
  lemma NearbyIs(ix: Index, objects: Objects, metric: Metric, size: real, p: Position, radius: real,
                 wanted: Option<HazardType>)
    requires Valid(ix) && size > 0.0
    ensures
      var r := Nearby(ix, objects, metric, size, p, radius, wanted);
      && Distinct(r)
      && forall id :: id in r <==>
           id in ix.cellOf && Matches(objects, id, metric, p, radius, wanted)
           && InWindow(CellAt(p, size), Span(radius, size), ix.cellOf[id])
  {
    WindowIs(ix, CellAt(p, size), Span(radius, size), Matching(ix.cellOf.Keys, objects, metric, p, radius, wanted));
  }

  // ---------------------------------------------------------------- agreement with a linear scan

  /** Every hazard sits in the bucket of its current position. */
  ghost predicate Placed(ix: Index, objects: Objects, size: real)
    requires size > 0.0
  {
    forall id :: id in ix.cellOf ==> id in objects && ix.cellOf[id] == CellAt(objects[id].position, size)
  }

  ghost predicate AgreesWithScan(ix: Index, objects: Objects, metric: Metric, size: real, p: Position, radius: real,
                                 wanted: Option<HazardType>)
    requires size > 0.0
  {
    forall id :: id in Nearby(ix, objects, metric, size, p, radius, wanted) <==>
                   id in ix.cellOf && Matches(objects, id, metric, p, radius, wanted)
  }

  /** The query is exact if and only if no hazard in range lies outside the window of cells. */
  lemma QueryIsExactIff(ix: Index, objects: Objects, metric: Metric, size: real, p: Position, radius: real,
                        wanted: Option<HazardType>)
    requires Valid(ix) && size > 0.0 && Placed(ix, objects, size)
    ensures AgreesWithScan(ix, objects, metric, size, p, radius, wanted) <==>
            forall id :: id in ix.cellOf && Matches(objects, id, metric, p, radius, wanted) ==>
                           InWindow(CellAt(p, size), Span(radius, size), CellAt(objects[id].position, size))
  {
    NearbyIs(ix, objects, metric, size, p, radius, wanted);
  }

  /** The window around `p` covers its surroundings: no position within the radius lies outside it. */
  ghost predicate Covered(metric: Metric, size: real, p: Position, radius: real)
    requires size > 0.0
  {
    forall q: Position {:trigger metric(p, q)} :: OnGlobe(q) && metric(p, q) <= radius ==>
      InWindow(CellAt(p, size), Span(radius, size), CellAt(q, size))
  }

  lemma CellsApart(a: real, b: real, size: real, n: nat)
    requires size > 0.0 && a - b <= n as real * size
    ensures (a / size).Floor - (b / size).Floor <= n
  {
    assert a / size - b / size <= n as real by {
      assert (a - b) / size <= n as real * size / size;
    }
  }

  /** Positions no further apart than the span of cells on either axis are in each other's window. */
  lemma NearIsInWindow(size: real, n: nat, reach: real, p: Position, q: Position)
    requires size > 0.0 && reach == n as real * size
    requires p.lat - q.lat <= reach && q.lat - p.lat <= reach && p.lon - q.lon <= reach && q.lon - p.lon <= reach
    ensures InWindow(CellAt(p, size), n, CellAt(q, size))
  {
    CellsApart(p.lat, q.lat, size, n);
    CellsApart(q.lat, p.lat, size, n);
    CellsApart(p.lon, q.lon, size, n);
    CellsApart(q.lon, p.lon, size, n);
  }

  /** Where the window covers the surroundings, a query equals a linear scan. */
  lemma QueryEqualsScan(ix: Index, objects: Objects, metric: Metric, size: real, p: Position, radius: real,
                        wanted: Option<HazardType>)
    requires Valid(ix) && size > 0.0 && Placed(ix, objects, size) && Covered(metric, size, p, radius)
    requires forall id :: id in ix.cellOf ==> OnGlobe(objects[id].position)
    ensures AgreesWithScan(ix, objects, metric, size, p, radius, wanted)
  {
    forall id | id in ix.cellOf && Matches(objects, id, metric, p, radius, wanted)
      ensures InWindow(CellAt(p, size), Span(radius, size), CellAt(objects[id].position, size))
    {
      assert OnGlobe(objects[id].position) && metric(p, objects[id].position) <= radius;
    }
    QueryIsExactIff(ix, objects, metric, size, p, radius, wanted);
  }

  // ---------------------------------------------------------------- runs

  datatype Op = Insert(id: string, h: Hazard) | Remove(id: string)

  /** Inserting stores the object and files it under its position; removing only unfiles it. */
  function Step(ix: Index, objects: Objects, op: Op, size: real): (Index, Objects)
    requires size > 0.0
  {
    match op
    case Insert(id, h) => (Place(ix, id, CellAt(h.position, size)), objects[id := h])
    case Remove(id) => (Take(ix, id), objects)
  }

  function Run(ix: Index, objects: Objects, ops: seq<Op>, size: real): (Index, Objects)
    requires size > 0.0
  {
    if ops == [] then (ix, objects)
    else
      var n := |ops| - 1;
      var before := Run(ix, objects, ops[..n], size);
      Step(before.0, before.1, ops[n], size)
  }

  /** What a plain list of the last inserted, not yet removed hazards would hold. */
  function Listed(ops: seq<Op>): map<string, Hazard> {
    if ops == [] then map[]
    else
      var before := Listed(ops[..|ops| - 1]);
      match ops[|ops| - 1]
      case Insert(id, h) => before[id := h]
      case Remove(id) => before - {id}
  }

  lemma {:induction false} RunIsListed(ops: seq<Op>, size: real)
    requires size > 0.0
    ensures
      var (ix, objects) := Run(EMPTY_INDEX, map[], ops, size);
      && Valid(ix) && Placed(ix, objects, size)
      && (forall id :: id in ix.cellOf <==> id in Listed(ops))
      && (forall id :: id in ix.cellOf ==> objects[id] == Listed(ops)[id])
  {
    if ops != [] {
      var n := |ops| - 1;
      RunIsListed(ops[..n], size);
      var (ix, objects) := Run(EMPTY_INDEX, map[], ops[..n], size);
      match ops[n]
      case Insert(id, h) => PlaceKeepsValid(ix, id, CellAt(h.position, size));
      case Remove(id) => TakeKeepsValid(ix, id);
    }
  }

  ghost predicate InsertsOnGlobe(ops: seq<Op>) {
    forall i :: 0 <= i < |ops| && ops[i].Insert? ==> OnGlobe(ops[i].h.position)
  }

  lemma {:induction false} ListedOnGlobe(ops: seq<Op>)
    requires InsertsOnGlobe(ops)
    ensures forall id :: id in Listed(ops) ==> OnGlobe(Listed(ops)[id].position)
  {
    if ops != [] {
      ListedOnGlobe(ops[..|ops| - 1]);
    }
  }

  /** The query returns exactly the listed hazards in range and of the type, each once. */
  ghost predicate ExactAfter(ops: seq<Op>, metric: Metric, size: real, p: Position, radius: real,
                             wanted: Option<HazardType>)
    requires size > 0.0
  {
    var (ix, objects) := Run(EMPTY_INDEX, map[], ops, size);
    var r := Nearby(ix, objects, metric, size, p, radius, wanted);
    Distinct(r) && forall id :: id in r <==> id in Listed(ops) && Matches(Listed(ops), id, metric, p, radius, wanted)
  }

  lemma QueriesAreExactAfterAnyRun(ops: seq<Op>, metric: Metric, size: real, p: Position, radius: real,
                                   wanted: Option<HazardType>)
    requires size > 0.0 && InsertsOnGlobe(ops) && Covered(metric, size, p, radius)
    ensures ExactAfter(ops, metric, size, p, radius, wanted)
  {
    RunIsListed(ops, size);
    ListedOnGlobe(ops);
    var (ix, objects) := Run(EMPTY_INDEX, map[], ops, size);
    NearbyIs(ix, objects, metric, size, p, radius, wanted);
    QueryEqualsScan(ix, objects, metric, size, p, radius, wanted);
  }

  /** A hazard in range but outside the window, alone in the index, is missed. */
  lemma OutsideIsMissed(h: Hazard, metric: Metric, size: real, p: Position, radius: real)
    requires size > 0.0 && metric(p, h.position) <= radius
    requires !InWindow(CellAt(p, size), Span(radius, size), CellAt(h.position, size))
    ensures !ExactAfter([Insert("h", h)], metric, size, p, radius, None)
  {
    var ops := [Insert("h", h)];
    assert ops[..0] == [] && Listed(ops) == Listed(ops[..0])["h" := h];
    RunIsListed(ops, size);
    var (ix, objects) := Run(EMPTY_INDEX, map[], ops, size);
    NearbyIs(ix, objects, metric, size, p, radius, None);
    assert Matches(Listed(ops), "h", metric, p, radius, None);
  }

  /** Whatever was inserted, moved and removed before, the query is exact. */
  ghost predicate AlwaysExact(metric: Metric, size: real, p: Position, radius: real)
    requires size > 0.0
  {
    forall ops, wanted {:trigger ExactAfter(ops, metric, size, p, radius, wanted)} ::
      InsertsOnGlobe(ops) ==> ExactAfter(ops, metric, size, p, radius, wanted)
  }

  /** Queries at a position are exact after every run of inserts, moves and removes if and only if the window covers the
      surroundings of the position. */
  lemma QueriesAreExactIff(metric: Metric, size: real, p: Position, radius: real)
    requires size > 0.0
    ensures AlwaysExact(metric, size, p, radius) <==> Covered(metric, size, p, radius)
  {
    if Covered(metric, size, p, radius) {
      forall ops, wanted: Option<HazardType> | InsertsOnGlobe(ops)
        ensures ExactAfter(ops, metric, size, p, radius, wanted)
      {
        QueriesAreExactAfterAnyRun(ops, metric, size, p, radius, wanted);
      }
    }
    if AlwaysExact(metric, size, p, radius) {
      forall q: Position | OnGlobe(q) && metric(p, q) <= radius
        ensures InWindow(CellAt(p, size), Span(radius, size), CellAt(q, size))
      {
        if !InWindow(CellAt(p, size), Span(radius, size), CellAt(q, size)) {
          var h := Hazard(Other, q, 0.0, 0.0, 0.0, 0.0, 0, [], 0, 0, Candidate, None);
          OutsideIsMissed(h, metric, size, p, radius);
          assert InsertsOnGlobe([Insert("h", h)]);
        }
      }
    }
  }

  // ---------------------------------------------------------------- the index object

  class HazardSpatialIndex {
    const size: real
    var grid: map<Cell, seq<string>>
    var idToKey: map<string, Cell>

    ghost function Model(): Index
      reads this
    {
      Index(grid, idToKey)
    }

    /** Every indexed id refers to an object. */
    ghost predicate Resolves(objects: Objects)
      reads this
    {
      forall id :: id in idToKey ==> id in objects
    }

    constructor (size: real)
      ensures this.size == size && Model() == EMPTY_INDEX && Valid(Model())
    {
      this.size := size;
      grid, idToKey := map[], map[];
    }

    method RemoveFromGrid(id: string)
      requires Valid(Model())
      modifies this`grid, this`idToKey
      ensures Valid(Model()) && Model() == Take(old(Model()), id)
    {
      TakeKeepsValid(Model(), id);
      if id in idToKey {
        var key := idToKey[id];
        idToKey := idToKey - {id};
        if key in grid {
          var bucket := Without(grid[key], id);
          grid := if bucket == [] then grid - {key} else grid[key := bucket];
        }
      }
    }

    method Insert(id: string, position: Position)
      requires Valid(Model()) && size > 0.0
      modifies this`grid, this`idToKey
      ensures Valid(Model()) && Model() == Place(old(Model()), id, CellAt(position, size))
    {
      PlaceKeepsValid(Model(), id, CellAt(position, size));
      if id in idToKey {
        RemoveFromGrid(id);
      }
      var key := CellAt(position, size);
      var bucket := if key in grid then grid[key] else [];
      grid := grid[key := bucket + [id]];
      idToKey := idToKey[id := key];
    }

    /** The hazards of one bucket that pass the type and distance tests. */
    method ScanCell(cell: Cell, objects: Objects, metric: Metric, p: Position, radius: real, wanted: Option<HazardType>)
      returns (found: seq<string>)
      requires Valid(Model()) && Resolves(objects)
      ensures found == Only(Bucket(Model(), cell), Matching(idToKey.Keys, objects, metric, p, radius, wanted))
    {
      found := [];
      if cell !in grid {
        return;
      }
      var bucket := grid[cell];
      ghost var keep := Matching(idToKey.Keys, objects, metric, p, radius, wanted);
      for k := 0 to |bucket|
        invariant found == Only(bucket[..k], keep)
      {
        OnlySnoc(bucket, keep, k);
        assert InBucket(Model(), cell, bucket[k]);
        var hazard := objects[bucket[k]];
        if wanted.Some? && hazard.hazardType != wanted.value {
          continue;
        }
        if metric(p, hazard.position) <= radius {
          found := found + [bucket[k]];
        }
      }
      assert bucket[..|bucket|] == bucket;
    }

    /** One row of the window. */
    method ScanRow(row: int, from: int, n: nat, objects: Objects, metric: Metric, p: Position, radius: real,
                   wanted: Option<HazardType>)
      returns (found: seq<string>)
      requires Valid(Model()) && Resolves(objects)
      ensures found == Collect(Model(), RowCells(row, from, n),
                               Matching(idToKey.Keys, objects, metric, p, radius, wanted))
    {
      found := [];
      for dj := 0 to n
        invariant found == Collect(Model(), RowCells(row, from, dj),
                                   Matching(idToKey.Keys, objects, metric, p, radius, wanted))
      {
        var more := ScanCell(Cell(row, from + dj), objects, metric, p, radius, wanted);
        RowStep(Model(), row, from, dj, Matching(idToKey.Keys, objects, metric, p, radius, wanted));
        found := found + more;
      }
    }

    /** The window of cells around the centre, row by row. */
    method ScanWindow(centre: Cell, span: nat, objects: Objects, metric: Metric, p: Position, radius: real,
                      wanted: Option<HazardType>)
      returns (found: seq<string>)
      requires Valid(Model()) && Resolves(objects)
      ensures found == Collect(Model(), WindowCells(centre, span, 2 * span + 1),
                               Matching(idToKey.Keys, objects, metric, p, radius, wanted))
    {
      found := [];
      for di := 0 to 2 * span + 1
        invariant found == Collect(Model(), WindowCells(centre, span, di),
                                   Matching(idToKey.Keys, objects, metric, p, radius, wanted))
      {
        var more := ScanRow(centre.row - span + di, centre.col - span, 2 * span + 1, objects, metric, p, radius,
                            wanted);
        WindowStep(Model(), centre, span, di, Matching(idToKey.Keys, objects, metric, p, radius, wanted));
        found := found + more;
      }
    }

    /** `query_nearby`, over the objects the index refers to. */
    method QueryNearby(objects: Objects, metric: Metric, p: Position, radius: real, wanted: Option<HazardType>)
      returns (results: seq<string>)
      requires Valid(Model()) && size > 0.0 && Resolves(objects)
      ensures results == Nearby(Model(), objects, metric, size, p, radius, wanted)
    {
      results := ScanWindow(CellAt(p, size), Span(radius, size), objects, metric, p, radius, wanted);
    }
  }

  lemma {:induction false} CollectConcat(ix: Index, a: seq<Cell>, b: seq<Cell>, keep: set<string>)
    ensures Collect(ix, a + b, keep) == Collect(ix, a, keep) + Collect(ix, b, keep)
  {
    if b == [] {
      assert a + b == a;
    } else {
      var n := |b| - 1;
      var last := Only(Bucket(ix, b[n]), keep);
      CollectConcat(ix, a, b[..n], keep);
      assert (a + b)[..|a + b| - 1] == a + b[..n];
      ConcatAssociates(Collect(ix, a, keep), Collect(ix, b[..n], keep), last);
    }
  }

  lemma RowStep(ix: Index, row: int, from: int, n: nat, keep: set<string>)
    ensures Collect(ix, RowCells(row, from, n + 1), keep)
            == Collect(ix, RowCells(row, from, n), keep) + Only(Bucket(ix, Cell(row, from + n)), keep)
  {
    var cells := RowCells(row, from, n);
    assert (cells + [Cell(row, from + n)])[..|cells|] == cells;
  }

  lemma WindowStep(ix: Index, centre: Cell, span: nat, m: nat, keep: set<string>)
    ensures Collect(ix, WindowCells(centre, span, m + 1), keep)
            == Collect(ix, WindowCells(centre, span, m), keep)
               + Collect(ix, RowCells(centre.row - span + m, centre.col - span, 2 * span + 1), keep)
  {
    var before, row := WindowCells(centre, span, m), RowCells(centre.row - span + m, centre.col - span, 2 * span + 1);
    assert WindowCells(centre, span, m + 1) == before + row;
    CollectConcat(ix, before, row, keep);
  }
}
