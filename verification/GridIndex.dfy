/** The uniform grid that replaces brute-force nearest-neighbour search in the scan matcher
    (GridIndex in scan_matcher.hpp). Coordinates are real numbers. */
module GridIndex {

  import opened Scaling

  datatype Point2D = Point2D(x: real, y: real)

  /** Conversion to an integer as C++ does it: toward zero, not downward. */
  function Trunc(r: real): int
  {
    if r >= 0.0 then r.Floor else -((-r).Floor)
  }

  /** The cell coordinate of v on an axis that starts at o, with inv cells per metre. */
  function Cell(v: real, o: real, inv: real): int
  {
    Trunc((v - o) * inv)
  }

  function Dist2(p: Point2D, q: Point2D): real
  {
    (p.x - q.x) * (p.x - q.x) + (p.y - q.y) * (p.y - q.y)
  }

  // ---------------------------------------------------------------- arithmetic of cells

  lemma ScaledGap(x: real, y: real, size: real, inv: real)
    requires size > 0.0 && inv > 0.0 && size * inv == 1.0
    requires x >= size && -size < x - y < size
    ensures x * inv >= 1.0 && -1.0 < x * inv - y * inv < 1.0
  {
    ScaleAtMost(size, x, inv);
    var gap := x - y;
    ScaleDifference(x, y, inv);
    assert gap * inv == x * inv - y * inv;
    ScaleLess(gap, size, inv);
    ScaleOpposite(size, gap, inv);
  }

  lemma TruncClose(a: real, b: real)
    requires a >= 1.0 && -1.0 < a - b < 1.0
    ensures -1 <= Trunc(a) - Trunc(b) <= 1
  {
  }

  // A point no closer to the origin than one cell, and a query less than one cell away from
  // it: their cells are neighbours. Truncation toward zero differs from rounding down only
  // for queries so far left of the grid that no point is near them.
  lemma NeighbourCells(v: real, q: real, o: real, size: real, inv: real)
    requires size > 0.0 && inv > 0.0 && size * inv == 1.0
    requires v - o >= size && -size < v - q < size
    ensures -1 <= Cell(v, o, inv) - Cell(q, o, inv) <= 1
  {
    ScaledGap(v - o, q - o, size, inv);
    TruncClose((v - o) * inv, (q - o) * inv);
  }

  lemma CellMonotone(a: real, b: real, o: real, inv: real)
    requires inv > 0.0 && o <= a <= b
    ensures 0 <= Cell(a, o, inv) <= Cell(b, o, inv)
  {
    ScaleAtMost(0.0, a - o, inv);
    ScaleAtMost(a - o, b - o, inv);
    TruncMonotone((a - o) * inv, (b - o) * inv);
  }

  lemma TruncMonotone(a: real, b: real)
    requires 0.0 <= a <= b
    ensures 0 <= Trunc(a) <= Trunc(b)
  {
  }

  lemma FlatIndex(i: int, j: int, nx: int, ny: int)
    requires 0 <= i < nx && 0 <= j < ny
    ensures 0 <= i * ny + j < nx * ny
  {
    MultiplyAtMost(0, i, ny);
    MultiplyAtMost(i + 1, nx, ny);
    assert (i + 1) * ny == i * ny + ny;
  }

  lemma FlatInjective(i: int, j: int, i': int, j': int, ny: int)
    requires 0 <= j < ny && 0 <= j' < ny && (i != i' || j != j')
    ensures i * ny + j != i' * ny + j'
  {
    if i < i' {
      MultiplyAtMost(i + 1, i', ny);
      assert (i + 1) * ny == i * ny + ny;
    } else if i > i' {
      MultiplyAtMost(i' + 1, i, ny);
      assert (i' + 1) * ny == i' * ny + ny;
    }
  }

  // If the squared distance is below size squared, so is each coordinate difference.
  lemma CloseInEachAxis(p: Point2D, q: Point2D, size: real)
    requires size > 0.0 && Dist2(p, q) < size * size
    ensures -size < q.x - p.x < size && -size < q.y - p.y < size
  {
    if !(-size < q.x - p.x < size) {
      FarInOneAxis(p.x - q.x, p.y - q.y, size);
    } else if !(-size < q.y - p.y < size) {
      FarInOneAxis(p.y - q.y, p.x - q.x, size);
    }
  }

  lemma FarInOneAxis(d: real, e: real, size: real)
    requires size > 0.0 && (d >= size || d <= -size)
    ensures d * d + e * e >= size * size
  {
    assert e * e >= 0.0;
    var m := if d >= size then d else -d;
    ScaleAtMost(size, m, size);
    ScaleAtMost(size, m, m);
    assert m * m == d * d;
  }

  // ---------------------------------------------------------------- the order of the search

  /** Where a point lies: its cell coordinates. */
  datatype Place = Place(i: int, j: int)

  /** The 3 x 3 search meets index m of cell p before index n of cell q. */
  ghost predicate Earlier(p: Place, m: nat, q: Place, n: nat)
  {
    p.i < q.i || (p.i == q.i && (p.j < q.j || (p.j == q.j && m < n)))
  }

  ghost predicate Near(p: Place, centre: Place)
  {
    -1 <= p.i - centre.i <= 1 && -1 <= p.j - centre.j <= 1
  }

  /** Candidate k beats point i: it is nearer, or as near and met earlier. */
  ghost predicate Beats(places: seq<Place>, d: seq<real>, k: nat, i: nat)
    requires |places| == |d| && k < |d| && i < |d|
  {
    d[k] < d[i] || (d[k] == d[i] && (k == i || Earlier(places[k], k, places[i], i)))
  }

  /** The candidate is the best of the neighbourhood's points met before index n of cell at;
      -1 stands for "none within the limit". */
  ghost predicate BestBefore(places: seq<Place>, d: seq<real>, limit: real, centre: Place,
                             at: Place, n: nat, best: int)
    requires |places| == |d|
  {
    && -1 <= best < |d|
    && (best >= 0 ==> Earlier(places[best], best, at, n) && d[best] < limit)
    && forall i: nat | i < |d| && Near(places[i], centre) && Earlier(places[i], i, at, n) ::
         if best < 0 then d[i] >= limit else Beats(places, d, best, i)
  }

  // Meeting the next index of a cell.
  lemma Visit(places: seq<Place>, d: seq<real>, limit: real, centre: Place, at: Place, n: nat, i: nat, best: int)
    requires |places| == |d| && BestBefore(places, d, limit, centre, at, n, best)
    requires n <= i < |d| && places[i] == at
    requires forall k | n <= k < i :: places[k] != at
    ensures BestBefore(places, d, limit, centre, at, i + 1,
                       if d[i] < (if best < 0 then limit else d[best]) then i else best)
  {
    forall k: nat | k < |d| && Earlier(places[k], k, at, i + 1)
      ensures k == i || Earlier(places[k], k, at, n)
    {
      if places[k] == at {
        assert k < i + 1;
      }
    }
  }

  // Done with a cell.
  lemma LeaveCell(places: seq<Place>, d: seq<real>, limit: real, centre: Place, at: Place, n: nat, best: int)
    requires |places| == |d| && BestBefore(places, d, limit, centre, at, n, best)
    requires forall k | n <= k < |d| :: places[k] != at
    ensures BestBefore(places, d, limit, centre, Place(at.i, at.j + 1), 0, best)
  {
    forall k: nat | k < |d| && Earlier(places[k], k, Place(at.i, at.j + 1), 0)
      ensures Earlier(places[k], k, at, n)
    {
      if places[k] == at {
        assert k < n;
      }
    }
  }

  // Done with a column of the neighbourhood, or nothing lies in it.
  lemma LeaveColumn(places: seq<Place>, d: seq<real>, limit: real, centre: Place, i: int, j: int, best: int)
    requires |places| == |d| && BestBefore(places, d, limit, centre, Place(i, j), 0, best)
    requires j == centre.j + 2 || (j == centre.j - 1 && forall k | 0 <= k < |d| :: places[k].i != i)
    ensures BestBefore(places, d, limit, centre, Place(i + 1, centre.j - 1), 0, best)
  {
  }

  // ---------------------------------------------------------------- the index

  class GridIndex {
    const cellSize: real
    const invCell: real
    const ox: real
    const oy: real
    const nx: int
    const ny: int
    const pts: seq<Point2D>
    const cells: array<seq<nat>>
    ghost const places: seq<Place>

    function PlaceOf(p: Point2D): Place
    {
      Place(Cell(p.x, ox, invCell), Cell(p.y, oy, invCell))
    }

    /** Every point is at least one cell away from the lower edges of the grid. */
    ghost predicate Framed()
    {
      && |places| == |pts| && cellSize > 0.0 && invCell > 0.0 && cellSize * invCell == 1.0
      && forall i {:trigger PlaceOf(pts[i])} | 0 <= i < |pts| ::
           pts[i].x - ox >= cellSize && pts[i].y - oy >= cellSize && places[i] == PlaceOf(pts[i])
    }

    ghost predicate InGrid()
    {
      |places| == |pts| && forall i | 0 <= i < |places| :: 0 <= places[i].i < nx && 0 <= places[i].j < ny
    }

    /** The list holds, in ascending order, the indices below n of the points placed at p. */
    ghost predicate Lists(p: Place, list: seq<nat>, n: nat)
      requires n <= |places|
    {
      && (forall k | 0 <= k < |list| :: list[k] < n && places[list[k]] == p)
      && (forall k, l | 0 <= k < l < |list| :: list[k] < list[l])
      && (forall i | 0 <= i < n && places[i] == p :: i in list)
    }

    ghost predicate ListsAt(cs: seq<seq<nat>>, i: int, j: int, n: nat)
      requires n <= |places| && 0 <= i < nx && 0 <= j < ny && |cs| == nx * ny
    {
      FlatIndex(i, j, nx, ny);
      Lists(Place(i, j), cs[i * ny + j], n)
    }

    ghost predicate Filled(cs: seq<seq<nat>>, n: nat)
      requires n <= |places|
    {
      |cs| == nx * ny && forall i, j | 0 <= i < nx && 0 <= j < ny :: ListsAt(cs, i, j, n)
    }

    ghost predicate Valid()
      reads cells
    {
      InGrid() && Framed() && Filled(cells[..], |pts|)
    }

    /** Builds the index; the matcher never asks for one of an empty scan. */
    constructor (points: seq<Point2D>, maxDist: real)
      requires |points| > 0 && maxDist > 0.0
      ensures Valid() && pts == points && cellSize == maxDist && fresh(cells)
    {
      var minx, miny, maxx, maxy := BoundingBox(points);
      var inv := 1.0 / maxDist;
      var x0, y0 := minx - maxDist, miny - maxDist;
      var w, h := Cell(maxx, x0, inv) + 2, Cell(maxy, y0, inv) + 2;
      pts, cellSize, invCell, ox, oy, nx, ny := points, maxDist, inv, x0, y0, w, h;
      ghost var at := GridFrame(points, x0, maxx, y0, maxy, maxDist, inv);
      places := at;
      MultiplyAtMost(0, w, h);
      cells := new seq<nat>[w * h](_ => []);
      new;
      NothingListed(cells[..]);
      InsertAll();
    }

    method InsertAll()
      requires InGrid() && Framed() && Filled(cells[..], 0)
      modifies cells
      ensures Filled(cells[..], |pts|)
    {
      var i := 0;
      while i < |pts|
        invariant 0 <= i <= |pts|
        invariant Filled(cells[..], i)
      {
        assert places[i] == PlaceOf(pts[i]);
        var ci, cj := Cell(pts[i].x, ox, invCell), Cell(pts[i].y, oy, invCell);
        Insert(i, ci, cj);
        i := i + 1;
      }
    }

    lemma NothingListed(cs: seq<seq<nat>>)
      requires |cs| == nx * ny && forall k | 0 <= k < |cs| :: cs[k] == []
      ensures Filled(cs, 0)
    {
      forall i, j | 0 <= i < nx && 0 <= j < ny
        ensures ListsAt(cs, i, j, 0)
      {
        FlatIndex(i, j, nx, ny);
      }
    }

    method Insert(i: nat, ci: int, cj: int)
      requires i < |places| && InGrid() && places[i] == Place(ci, cj) && Filled(cells[..], i)
      modifies cells
      ensures Filled(cells[..], i + 1)
    {
      FlatIndex(ci, cj, nx, ny);
      ghost var before := cells[..];
      ghost var at := ci * ny + cj;
      cells[ci * ny + cj] := cells[ci * ny + cj] + [i];
      assert cells[..] == before[at := before[at] + [i]];
      InsertLists(before, i, ci, cj);
    }

    lemma InsertLists(cs: seq<seq<nat>>, i: nat, ci: int, cj: int)
      requires i < |places| && InGrid() && places[i] == Place(ci, cj) && Filled(cs, i)
      ensures 0 <= ci * ny + cj < |cs|
      ensures Filled(cs[ci * ny + cj := cs[ci * ny + cj] + [i]], i + 1)
    {
      FlatIndex(ci, cj, nx, ny);
      var at, n := ci * ny + cj, i + 1;
      var now := cs[at := cs[at] + [i]];
      forall a, b | 0 <= a < nx && 0 <= b < ny
        ensures ListsAt(now, a, b, n)
      {
        assert ListsAt(cs, a, b, i);
        FlatIndex(a, b, nx, ny);
        if a != ci || b != cj {
          FlatInjective(a, b, ci, cj, ny);
        }
        ListsNext(Place(a, b), cs[a * ny + b], i);
      }
    }

    lemma ListsNext(p: Place, list: seq<nat>, i: nat)
      requires i < |places| && Lists(p, list, i)
      ensures Lists(p, if p == places[i] then list + [i] else list, i + 1)
    {
      if p == places[i] {
        var longer := list + [i];
        assert longer[|list|] == i;
        forall m | 0 <= m < i + 1 && places[m] == p
          ensures m in longer
        {
          if m < i {
            var k :| 0 <= k < |list| && list[k] == m;
            assert longer[k] == m;
          }
        }
        assert forall k | 0 <= k < |list| :: longer[k] == list[k];
      }
    }

    /** The squared distances from a query, one for each point. */
    ghost predicate Distances(query: Point2D, d: seq<real>)
    {
      |d| == |pts| && forall i {:trigger Dist2(query, pts[i])} | 0 <= i < |d| :: d[i] == Dist2(query, pts[i])
    }

    method FindNearest(query: Point2D, limit: real) returns (bestIdx: int, bestDist2: real)
      requires Valid() && limit <= cellSize * cellSize
      ensures -1 <= bestIdx < |pts|
      // found exactly when some point is closer than the limit
      ensures bestIdx >= 0 <==> exists i | 0 <= i < |pts| :: Dist2(query, pts[i]) < limit
      // the distance returned is the true minimum and the index attains it
      ensures bestDist2 == if bestIdx < 0 then limit else Dist2(query, pts[bestIdx])
      ensures bestIdx >= 0 ==> forall i | 0 <= i < |pts| :: bestDist2 <= Dist2(query, pts[i])
      // among equally near points the one whose cell is searched first wins
      ensures bestIdx >= 0 ==> forall i: nat | i < |pts| && i != bestIdx && Dist2(query, pts[i]) == bestDist2 ::
                Earlier(PlaceOf(pts[bestIdx]), bestIdx, PlaceOf(pts[i]), i)
    {
      var ci, cj := Cell(query.x, ox, invCell), Cell(query.y, oy, invCell);
      ghost var d := MeasureAll(query);
      bestIdx, bestDist2 := Search(query, limit, ci, cj, d);
      assert Place(ci, cj) == PlaceOf(query);
      Conclude(query, limit, d, bestIdx);
    }

    /** The two outer loops: the 3 x 3 cells around the query's own. */
    method Search(query: Point2D, limit: real, ci: int, cj: int, ghost d: seq<real>)
        returns (bestIdx: int, bestDist2: real)
      requires InGrid() && Filled(cells[..], |pts|) && Distances(query, d)
      ensures BestBefore(places, d, limit, Place(ci, cj), Place(ci + 2, cj - 1), 0, bestIdx)
      ensures bestDist2 == if bestIdx < 0 then limit else d[bestIdx]
    {
      ghost var centre := Place(ci, cj);
      bestIdx, bestDist2 := -1, limit;
      var di := -1;
      while di <= 1
        invariant -1 <= di <= 2
        invariant BestBefore(places, d, limit, centre, Place(ci + di, cj - 1), 0, bestIdx)
        invariant bestDist2 == if bestIdx < 0 then limit else d[bestIdx]
      {
        var ri := ci + di;
        if 0 <= ri < nx {
          var dj := -1;
          while dj <= 1
            invariant -1 <= dj <= 2
            invariant BestBefore(places, d, limit, centre, Place(ri, cj + dj), 0, bestIdx)
            invariant bestDist2 == if bestIdx < 0 then limit else d[bestIdx]
          {
            var rj := cj + dj;
            if 0 <= rj < ny {
              bestIdx, bestDist2 := SearchCell(query, limit, ri, rj, bestIdx, bestDist2, centre, d);
            } else {
              LeaveCell(places, d, limit, centre, Place(ri, rj), 0, bestIdx);
            }
            dj := dj + 1;
          }
          LeaveColumn(places, d, limit, centre, ri, cj + 2, bestIdx);
        } else {
          LeaveColumn(places, d, limit, centre, ri, cj - 1, bestIdx);
        }
        di := di + 1;
      }
    }

    /** The innermost loop: all indices listed in one cell. */
    method SearchCell(query: Point2D, limit: real, ri: int, rj: int, idx: int, dist2: real,
                      ghost centre: Place, ghost d: seq<real>)
        returns (bestIdx: int, bestDist2: real)
      requires InGrid() && Filled(cells[..], |pts|) && Distances(query, d) && 0 <= ri < nx && 0 <= rj < ny
      requires BestBefore(places, d, limit, centre, Place(ri, rj), 0, idx)
      requires dist2 == if idx < 0 then limit else d[idx]
      ensures BestBefore(places, d, limit, centre, Place(ri, rj + 1), 0, bestIdx)
      ensures bestDist2 == if bestIdx < 0 then limit else d[bestIdx]
    {
      bestIdx, bestDist2 := idx, dist2;
      ghost var at := Place(ri, rj);
      FlatIndex(ri, rj, nx, ny);
      var list := cells[ri * ny + rj];
      assert Lists(at, list, |pts|) by {
        assert ListsAt(cells[..], ri, rj, |pts|);
      }
      var k := 0;
      ghost var n: nat := 0;   // every index of the cell below n has been met
      while k < |list|
        invariant 0 <= k <= |list|
        invariant forall l | 0 <= l < k :: list[l] < n
        invariant forall l | k <= l < |list| :: n <= list[l]
        invariant BestBefore(places, d, limit, centre, at, n, bestIdx)
        invariant bestDist2 == if bestIdx < 0 then limit else d[bestIdx]
      {
        var i := list[k];
        var d2 := Measure(query, i, d);
        Visit(places, d, limit, centre, at, n, i, bestIdx);
        if d2 < bestDist2 {
          bestDist2 := d2;
          bestIdx := i;
        }
        k, n := k + 1, i + 1;
      }
      LeaveCell(places, d, limit, centre, at, n, bestIdx);
    }

    method Measure(query: Point2D, i: nat, ghost d: seq<real>) returns (d2: real)
      requires i < |pts| && Distances(query, d)
      ensures d2 == d[i]
    {
      var dx := query.x - pts[i].x;
      var dy := query.y - pts[i].y;
      d2 := dx * dx + dy * dy;
      assert d2 == Dist2(query, pts[i]);
    }

    lemma MeasureAll(query: Point2D) returns (d: seq<real>)
      ensures Distances(query, d)
    {
      d := seq(|pts|, i requires 0 <= i < |pts| => Dist2(query, pts[i]));
    }

    // Whatever lies outside the 3 x 3 neighbourhood is at least one cell away.
    lemma FarPointsAreFar(query: Point2D, limit: real, d: seq<real>, i: nat)
      requires InGrid() && Framed() && limit <= cellSize * cellSize && Distances(query, d)
      requires i < |pts|
      ensures d[i] < limit ==> Near(places[i], PlaceOf(query))
    {
      assert places[i] == PlaceOf(pts[i]) && d[i] == Dist2(query, pts[i]);
      if d[i] < limit {
        CloseInEachAxis(query, pts[i], cellSize);
        NeighbourCells(pts[i].x, query.x, ox, cellSize, invCell);
        NeighbourCells(pts[i].y, query.y, oy, cellSize, invCell);
      }
    }

    lemma Conclude(query: Point2D, limit: real, d: seq<real>, best: int)
      requires InGrid() && Framed() && limit <= cellSize * cellSize && Distances(query, d)
      requires BestBefore(places, d, limit, PlaceOf(query), Place(PlaceOf(query).i + 2, PlaceOf(query).j - 1), 0, best)
      ensures best >= 0 <==> exists i | 0 <= i < |pts| :: Dist2(query, pts[i]) < limit
      ensures best >= 0 ==> d[best] == Dist2(query, pts[best])
      ensures best >= 0 ==> forall i | 0 <= i < |pts| :: d[best] <= Dist2(query, pts[i])
      ensures best >= 0 ==> forall i: nat | i < |pts| && i != best && Dist2(query, pts[i]) == d[best] ::
                Earlier(PlaceOf(pts[best]), best, PlaceOf(pts[i]), i)
    {
      forall i: nat | i < |pts|
        ensures if best < 0 then d[i] >= limit else Beats(places, d, best, i)
      {
        FarPointsAreFar(query, limit, d, i);
      }
      if best >= 0 {
        assert Dist2(query, pts[best]) < limit;
        assert places[best] == PlaceOf(pts[best]);
      }
    }
  }

  /** What brute force would answer: -1 when no target point is within maxDist, and otherwise
      the index of one that is nearest. */
  ghost predicate IsNearest(target: seq<Point2D>, query: Point2D, maxDist: real, idx: int)
  {
    && -1 <= idx < |target|
    && (idx < 0 ==> forall i | 0 <= i < |target| :: Dist2(query, target[i]) >= maxDist * maxDist)
    && (idx >= 0 ==> Dist2(query, target[idx]) < maxDist * maxDist)
    && (idx >= 0 ==> forall i | 0 <= i < |target| :: Dist2(query, target[idx]) <= Dist2(query, target[i]))
  }

  /** The correspondence search of `match`: scans of fewer than ten points are not matched. */
  method Correspond(target: seq<Point2D>, transformed: seq<Point2D>, maxDist: real) returns (found: seq<int>)
    requires maxDist > 0.0
    ensures |target| < 10 || |transformed| < 10 ==> found == []
    ensures |target| >= 10 && |transformed| >= 10 ==>
              && |found| == |transformed|
              && forall k | 0 <= k < |found| :: IsNearest(target, transformed[k], maxDist, found[k])
  {
    found := [];
    if |target| < 10 || |transformed| < 10 {
      return;
    }
    var grid := new GridIndex(target, maxDist);
    var limit := maxDist * maxDist;
    assert limit <= grid.cellSize * grid.cellSize;
    var k := 0;
    while k < |transformed|
      invariant 0 <= k == |found| <= |transformed| && grid.Valid()
      invariant forall l | 0 <= l < k :: IsNearest(target, transformed[l], maxDist, found[l])
    {
      var bestIdx, bestDist2 := grid.FindNearest(transformed[k], limit);
      found := found + [bestIdx];
      k := k + 1;
    }
  }

  const FAR := 1000000000.0

  /** The scan lies where the initial corners of the box cannot show. */
  ghost predicate InReach(points: seq<Point2D>)
  {
    forall i | 0 <= i < |points| :: -FAR <= points[i].x <= FAR && -FAR <= points[i].y <= FAR
  }

  ghost predicate HasX(points: seq<Point2D>, x: real)
  {
    exists i :: 0 <= i < |points| && points[i].x == x
  }

  ghost predicate HasY(points: seq<Point2D>, y: real)
  {
    exists i :: 0 <= i < |points| && points[i].y == y
  }

  /** The box bounds every point; within reach each of its four sides touches one. */
  method BoundingBox(points: seq<Point2D>) returns (minx: real, miny: real, maxx: real, maxy: real)
    ensures forall i | 0 <= i < |points| :: minx <= points[i].x <= maxx && miny <= points[i].y <= maxy
    ensures InReach(points) && points != [] ==>
              HasX(points, minx) && HasX(points, maxx) && HasY(points, miny) && HasY(points, maxy)
  {
    minx, miny, maxx, maxy := FAR, FAR, -FAR, -FAR;
    var k := 0;
    while k < |points|
      invariant 0 <= k <= |points|
      invariant forall i | 0 <= i < k :: minx <= points[i].x <= maxx && miny <= points[i].y <= maxy
      invariant minx <= FAR && miny <= FAR && -FAR <= maxx && -FAR <= maxy
      invariant (minx == FAR || HasX(points, minx)) && (maxx == -FAR || HasX(points, maxx))
      invariant (miny == FAR || HasY(points, miny)) && (maxy == -FAR || HasY(points, maxy))
    {
      var p := points[k];
      minx := if p.x < minx then p.x else minx;
      maxx := if p.x > maxx then p.x else maxx;
      miny := if p.y < miny then p.y else miny;
      maxy := if p.y > maxy then p.y else maxy;
      k := k + 1;
    }
    if InReach(points) && points != [] {
      assert HasX(points, points[0].x) && HasY(points, points[0].y);
    }
  }

  lemma GridFrame(points: seq<Point2D>, x0: real, maxx: real, y0: real, maxy: real, size: real, inv: real)
      returns (places: seq<Place>)
    requires size > 0.0 && inv == 1.0 / size && |points| > 0
    requires forall i | 0 <= i < |points| ::
               points[i].x - x0 >= size && points[i].x <= maxx && points[i].y - y0 >= size && points[i].y <= maxy
    ensures inv > 0.0 && size * inv == 1.0
    ensures Cell(maxx, x0, inv) >= 0 && Cell(maxy, y0, inv) >= 0
    ensures |places| == |points|
    ensures forall i {:trigger Cell(points[i].x, x0, inv)} | 0 <= i < |points| ::
              places[i] == Place(Cell(points[i].x, x0, inv), Cell(points[i].y, y0, inv))
    ensures forall i | 0 <= i < |places| ::
              0 <= places[i].i <= Cell(maxx, x0, inv) && 0 <= places[i].j <= Cell(maxy, y0, inv)
  {
    places := seq(|points|, i requires 0 <= i < |points| =>
                    Place(Cell(points[i].x, x0, inv), Cell(points[i].y, y0, inv)));
    forall i | 0 <= i < |places|
      ensures 0 <= places[i].i <= Cell(maxx, x0, inv) && 0 <= places[i].j <= Cell(maxy, y0, inv)
    {
      CellMonotone(points[i].x, maxx, x0, inv);
      CellMonotone(points[i].y, maxy, y0, inv);
    }
    assert 0 <= places[0].i && 0 <= places[0].j;
  }
}
