/**
 * The uniform grid the Poisson-disc sampler indexes accepted points with.
 * A cell holds 0 when empty and otherwise the 1-based index of a point.
 * Cell size `s` is fixed for a run; the sampler uses `s = r / sqrt(2)` for
 * its initial radius `r`, which gives both `r <= 2 s` (a neighbour closer
 * than `r` is at most two cells away) and `2 s * s <= r * r` (two points in
 * one cell are closer than `r`).
 */
module SpatialGrid {
  import opened Vectors
  import opened Numeric
  import opened ProceduralPoints

  /** `(int)(v / cellSize)`: the index of the cell holding coordinate `v`. */
  function Cell(v: real, cellSize: real): (c: int)
    requires cellSize > 0.0
    ensures 0.0 <= v ==> 0 <= c
    ensures v < 0.0 ==> c <= 0
  {
    QuotientSign(v, cellSize);
    Trunc(v / cellSize)
  }

  /**
   * A non-negative coordinate has a non-negative cell index, and its
   * quotient by the cell size lies in [index, index + 1).
   */
  lemma CellBounds(v: real, cellSize: real)
    requires cellSize > 0.0 && 0.0 <= v
    ensures 0 <= Cell(v, cellSize)
    ensures Cell(v, cellSize) as real <= v / cellSize < Cell(v, cellSize) as real + 1.0
  {
    QuotientSign(v, cellSize);
  }

  /** Multiplying by a positive cell size keeps order. */
  lemma ScaleOrder(a: real, b: real, k: real)
    requires k > 0.0
    ensures a <= b ==> a * k <= b * k
    ensures a < b ==> a * k < b * k
  {
    var d := b - a;
    if a <= b {
      assert d * k >= 0.0;
    }
    if a < b {
      assert d * k > 0.0;
    }
  }

  /** Dividing by a positive value keeps the sign. */
  lemma QuotientSign(v: real, k: real)
    requires k > 0.0
    ensures 0.0 <= v ==> 0.0 <= v / k
    ensures v < 0.0 ==> v / k <= 0.0
  {
    var q := v / k;
    assert q * k == v;
    ScaleOrder(q, 0.0, k);
    ScaleOrder(0.0, q, k);
  }

  /** Dividing by a positive cell size keeps strict order. */
  lemma DivideOrder(a: real, b: real, k: real)
    requires k > 0.0 && a < b
    ensures a / k < b / k
  {
    var qa, qb := a / k, b / k;
    assert qa * k == a && qb * k == b;
    ScaleOrder(qb, qa, k);
  }

  /** Values less than two cells apart have quotients less than 2 apart. */
  lemma QuotientGap(a: real, b: real, k: real)
    requires k > 0.0 && b - a < 2.0 * k
    ensures b / k - a / k < 2.0
  {
    var qa, qb := a / k, b / k;
    assert qa * k == a && qb * k == b;
    var d := qb - qa;
    assert d * k == b - a;
    ScaleOrder(2.0, d, k);
  }

  /** Values whose quotients are less than 1 apart are less than a cell apart. */
  lemma QuotientClose(a: real, b: real, k: real)
    requires k > 0.0 && -1.0 < a / k - b / k < 1.0
    ensures -k < a - b < k
  {
    var qa, qb := a / k, b / k;
    assert qa * k == a && qb * k == b;
    var d := qa - qb;
    assert d * k == a - b;
    ScaleOrder(d, 1.0, k);
    ScaleOrder(-1.0, d, k);
    assert (-1.0) * k == -k && 1.0 * k == k;
    assert d * k < k;
    assert -k < d * k;
  }

  /** `Mathf.CeilToInt(extent / cellSize)`: how many cells cover `extent`. */
  function GridLength(extent: real, cellSize: real): (n: int)
    requires cellSize > 0.0
    ensures 0.0 <= extent ==> 0 <= n
  {
    QuotientSign(extent, cellSize);
    CeilToInt(extent / cellSize)
  }

  /** A coordinate inside [0, extent) has its cell inside the grid. */
  lemma CellInRange(v: real, extent: real, cellSize: real)
    requires cellSize > 0.0 && 0.0 <= v < extent
    ensures 0 <= Cell(v, cellSize) < GridLength(extent, cellSize)
  {
    CellBounds(v, cellSize);
    DivideOrder(v, extent, cellSize);
  }

  /** First column (or row) of the search window: two cells back, clamped at 0. */
  function SearchStart(c: int): (s: int)
    ensures s >= 0 && s >= c - 2
    ensures s == 0 || s == c - 2
  {
    MaxInt(0, c - 2)
  }

  /** Last column (or row) of the search window: two cells on, clamped to the grid. */
  function SearchEnd(c: int, length: int): (e: int)
    ensures e <= length - 1 && e <= c + 2
    ensures e == length - 1 || e == c + 2
  {
    MinInt(c + 2, length - 1)
  }

  /** Every cell holds 0 or the 1-based index of one of `count` points. */
  ghost predicate GridIndexed(grid: array2<int>, count: nat)
    reads grid
  {
    forall x, y :: 0 <= x < grid.Length0 && 0 <= y < grid.Length1 ==> 0 <= grid[x, y] <= count
  }

  /** The point with footprint `p` lies in cell (x, y). */
  predicate InCell(p: Vec2, x: int, y: int, cellSize: real)
    requires cellSize > 0.0
  {
    Cell(p.x, cellSize) == x && Cell(p.y, cellSize) == y
  }

  /** Every nonzero cell names a point that lies in that cell. */
  ghost predicate GridSound(grid: array2<int>, points: seq<ProceduralPoint>, cellSize: real)
    requires cellSize > 0.0
    reads grid
  {
    && GridIndexed(grid, |points|)
    && forall x, y :: 0 <= x < grid.Length0 && 0 <= y < grid.Length1 && grid[x, y] != 0 ==>
         InCell(Footprint(points[grid[x, y] - 1]), x, y, cellSize)
  }

  /** Every point is recorded in its own cell. */
  ghost predicate GridComplete(grid: array2<int>, points: seq<ProceduralPoint>, cellSize: real)
    requires cellSize > 0.0
    reads grid
  {
    forall i :: 0 <= i < |points| ==>
      var cx := Cell(Footprint(points[i]).x, cellSize);
      var cy := Cell(Footprint(points[i]).y, cellSize);
      0 <= cx < grid.Length0 && 0 <= cy < grid.Length1 && grid[cx, cy] == i + 1
  }

  /** All footprints lie in the quadrant the grid covers. */
  ghost predicate NonNegative(points: seq<ProceduralPoint>) {
    forall i :: 0 <= i < |points| ==> 0.0 <= Footprint(points[i]).x && 0.0 <= Footprint(points[i]).y
  }

  /**
   * No point recorded in the clamped 5x5 window around `c`'s cell is closer
   * to `c` than `radius` (compared squared).
   */
  ghost predicate WindowClear(grid: array2<int>, points: seq<ProceduralPoint>, c: Vec2, radius: real, cellSize: real)
    requires cellSize > 0.0 && GridIndexed(grid, |points|)
    reads grid
  {
    var cx := Cell(c.x, cellSize);
    var cy := Cell(c.y, cellSize);
    forall x, y ::
      SearchStart(cx) <= x <= SearchEnd(cx, grid.Length0) &&
      SearchStart(cy) <= y <= SearchEnd(cy, grid.Length1) &&
      grid[x, y] != 0 ==>
        SqDist2(c, Footprint(points[grid[x, y] - 1])) >= radius * radius
  }

  /** Any two points are at least `radius` apart (compared squared). */
  ghost predicate Separated(points: seq<ProceduralPoint>, radius: real) {
    forall i, j :: 0 <= i < j < |points| ==>
      SqDist2(Footprint(points[i]), Footprint(points[j])) >= radius * radius
  }

  /** A square below `m * m` has its root strictly between -m and m. */
  lemma RootBelow(d: real, m: real)
    requires m > 0.0 && d * d < m * m
    ensures -m < d < m
  {
    SquareAtLeast(d, m);
    SquareAtLeast(-d, m);
    assert (-d) * (-d) == d * d;
  }

  /** Squaring keeps order on positive values. */
  lemma SquareAtLeast(d: real, m: real)
    ensures 0.0 < m <= d ==> m * m <= d * d
  {
    if 0.0 < m <= d {
      ScaleOrder(m, d, m);
      ScaleOrder(m, d, d);
    }
  }

  /** A value strictly between -m and m squares to below `m * m`. */
  lemma SquareBelow(d: real, m: real)
    requires -m < d < m
    ensures d * d < m * m
  {
    assert (m - d) * (m + d) > 0.0;
  }

  /** A coordinate less than two cells above another is at most two cells above it. */
  lemma CellGap(a: real, b: real, cellSize: real)
    requires cellSize > 0.0 && 0.0 <= a && 0.0 <= b
    requires b - a < 2.0 * cellSize
    ensures Cell(b, cellSize) <= Cell(a, cellSize) + 2
  {
    CellBounds(a, cellSize);
    CellBounds(b, cellSize);
    QuotientGap(a, b, cellSize);
  }

  /** Coordinates less than two cells apart have cell indices at most two apart. */
  lemma NearCells(a: real, b: real, cellSize: real)
    requires cellSize > 0.0 && 0.0 <= a && 0.0 <= b
    requires -2.0 * cellSize < a - b < 2.0 * cellSize
    ensures Cell(a, cellSize) - 2 <= Cell(b, cellSize) <= Cell(a, cellSize) + 2
  {
    CellGap(a, b, cellSize);
    CellGap(b, a, cellSize);
  }

  /** Two coordinates in the same cell are less than a cell apart. */
  lemma SameCell(a: real, b: real, cellSize: real)
    requires cellSize > 0.0 && 0.0 <= a && 0.0 <= b
    requires Cell(a, cellSize) == Cell(b, cellSize)
    ensures -cellSize < a - b < cellSize
  {
    CellBounds(a, cellSize);
    CellBounds(b, cellSize);
    QuotientClose(a, b, cellSize);
  }

  /** A point closer than `m` to `c` is less than `m` away along each axis. */
  lemma AxisWithin(c: Vec2, p: Vec2, m: real)
    requires m > 0.0 && SqDist2(c, p) < m * m
    ensures -m < c.x - p.x < m
    ensures -m < c.y - p.y < m
  {
    var dx, dy := c.x - p.x, c.y - p.y;
    assert dx * dx >= 0.0 && dy * dy >= 0.0;
    RootBelow(dx, m);
    RootBelow(dy, m);
  }

  /**
   * A point closer to `c` than two cells, whose cell is inside the grid,
   * lies in `c`'s clamped search window.
   */
  lemma NearPointInWindow(c: Vec2, p: Vec2, cellSize: real, length0: int, length1: int)
    requires cellSize > 0.0
    requires 0.0 <= c.x && 0.0 <= c.y && 0.0 <= p.x && 0.0 <= p.y
    requires SqDist2(c, p) < 4.0 * cellSize * cellSize
    requires Cell(p.x, cellSize) < length0 && Cell(p.y, cellSize) < length1
    ensures SearchStart(Cell(c.x, cellSize)) <= Cell(p.x, cellSize) <= SearchEnd(Cell(c.x, cellSize), length0)
    ensures SearchStart(Cell(c.y, cellSize)) <= Cell(p.y, cellSize) <= SearchEnd(Cell(c.y, cellSize), length1)
  {
    var twoCells := 2.0 * cellSize;
    assert twoCells * twoCells == 4.0 * cellSize * cellSize;
    AxisWithin(c, p, twoCells);
    NearAxisInWindow(c.x, p.x, cellSize, length0);
    NearAxisInWindow(c.y, p.y, cellSize, length1);
  }

  /**
   * A coordinate less than two cells from `a`, whose cell is inside the
   * grid, lies in the clamped search window around `a`'s cell.
   */
  lemma NearAxisInWindow(a: real, b: real, cellSize: real, length: int)
    requires cellSize > 0.0 && 0.0 <= a && 0.0 <= b
    requires -2.0 * cellSize < a - b < 2.0 * cellSize
    requires Cell(b, cellSize) < length
    ensures SearchStart(Cell(a, cellSize)) <= Cell(b, cellSize) <= SearchEnd(Cell(a, cellSize), length)
  {
    CellBounds(b, cellSize);
    NearCells(a, b, cellSize);
  }

  /**
   * The window is wide enough: when the grid records every point and `c`'s
   * window holds none within `radius`, no point at all is within `radius`,
   * provided `radius <= 2 * cellSize`.
   */
  lemma {:induction false} ClearWindowKeepsDistance(grid: array2<int>, points: seq<ProceduralPoint>, c: Vec2, radius: real, cellSize: real)
    requires cellSize > 0.0 && radius * radius <= 4.0 * cellSize * cellSize
    requires GridIndexed(grid, |points|) && GridComplete(grid, points, cellSize)
    requires NonNegative(points) && 0.0 <= c.x && 0.0 <= c.y
    requires WindowClear(grid, points, c, radius, cellSize)
    ensures forall i :: 0 <= i < |points| ==> SqDist2(c, Footprint(points[i])) >= radius * radius
  {
    forall i | 0 <= i < |points|
      ensures SqDist2(c, Footprint(points[i])) >= radius * radius
    {
      var p := Footprint(points[i]);
      var px, py := Cell(p.x, cellSize), Cell(p.y, cellSize);
      assert 0 <= px < grid.Length0 && 0 <= py < grid.Length1 && grid[px, py] == i + 1;
      var cx, cy := Cell(c.x, cellSize), Cell(c.y, cellSize);
      if SearchStart(cx) <= px <= SearchEnd(cx, grid.Length0) && SearchStart(cy) <= py <= SearchEnd(cy, grid.Length1) {
        // `p` is recorded inside the window, which is clear.
        assert points[grid[px, py] - 1] == points[i];
      } else {
        // Outside the window, `p` is at least two cells away.
        if SqDist2(c, p) < 4.0 * cellSize * cellSize {
          NearPointInWindow(c, p, cellSize, grid.Length0, grid.Length1);
          assert false;
        }
      }
    }
  }

  /**
   * The cell of a candidate whose window is clear is empty, provided two
   * points in one cell are always closer than `radius` (`2 * cellSize^2 <= radius^2`).
   * So recording the candidate never overwrites another point.
   */
  lemma {:induction false} ClearWindowFreeCell(grid: array2<int>, points: seq<ProceduralPoint>, c: Vec2, radius: real, cellSize: real)
    requires cellSize > 0.0 && 2.0 * cellSize * cellSize <= radius * radius
    requires GridSound(grid, points, cellSize) && NonNegative(points)
    requires 0.0 <= c.x && 0.0 <= c.y
    requires Cell(c.x, cellSize) < grid.Length0 && Cell(c.y, cellSize) < grid.Length1
    requires WindowClear(grid, points, c, radius, cellSize)
    ensures grid[Cell(c.x, cellSize), Cell(c.y, cellSize)] == 0
  {
    var cx, cy := Cell(c.x, cellSize), Cell(c.y, cellSize);
    var g := grid[cx, cy];
    if g != 0 {
      var p := Footprint(points[g - 1]);
      assert InCell(p, cx, cy, cellSize);
      SameCellClose(c, p, cellSize);
      assert false;
    }
  }

  /** Two footprints in one cell are less than a cell diagonal apart. */
  lemma SameCellClose(c: Vec2, p: Vec2, cellSize: real)
    requires cellSize > 0.0
    requires 0.0 <= c.x && 0.0 <= c.y && 0.0 <= p.x && 0.0 <= p.y
    requires InCell(c, Cell(p.x, cellSize), Cell(p.y, cellSize), cellSize)
    ensures SqDist2(c, p) < 2.0 * cellSize * cellSize
  {
    SameCell(c.x, p.x, cellSize);
    SameCell(c.y, p.y, cellSize);
    SquareBelow(c.x - p.x, cellSize);
    SquareBelow(c.y - p.y, cellSize);
  }

  /** Appending a point at least `radius` from all others keeps the set separated. */
  lemma {:induction false} SeparatedExtend(points: seq<ProceduralPoint>, p: ProceduralPoint, radius: real)
    requires Separated(points, radius)
    requires forall i :: 0 <= i < |points| ==> SqDist2(Footprint(p), Footprint(points[i])) >= radius * radius
    ensures Separated(points + [p], radius)
  {
    var ps := points + [p];
    forall i, j | 0 <= i < j < |ps|
      ensures SqDist2(Footprint(ps[i]), Footprint(ps[j])) >= radius * radius
    {
      if j == |points| {
        var a, b := Footprint(ps[i]), Footprint(p);
        assert SqDist2(b, a) >= radius * radius;
        assert SqDist2(a, b) == SqDist2(b, a);
      }
    }
  }

  /**
   * Records point `p`, appended after `points`, by writing its 1-based index
   * into its cell. Every nonzero cell still names a point in that cell; when
   * the cell was empty, every point is still recorded in its own cell.
   */
  method Record(grid: array2<int>, points: seq<ProceduralPoint>, p: ProceduralPoint, cellSize: real)
    requires cellSize > 0.0 && GridSound(grid, points, cellSize)
    requires 0 <= Cell(Footprint(p).x, cellSize) < grid.Length0 && 0 <= Cell(Footprint(p).y, cellSize) < grid.Length1
    modifies grid
    ensures grid[Cell(Footprint(p).x, cellSize), Cell(Footprint(p).y, cellSize)] == |points| + 1
    ensures forall x, y ::
      (0 <= x < grid.Length0 && 0 <= y < grid.Length1 &&
       (x != Cell(Footprint(p).x, cellSize) || y != Cell(Footprint(p).y, cellSize)))
      ==> grid[x, y] == old(grid[x, y])
    ensures GridSound(grid, points + [p], cellSize)
    ensures old(GridComplete(grid, points, cellSize))
         && old(grid[Cell(Footprint(p).x, cellSize), Cell(Footprint(p).y, cellSize)]) == 0
         ==> GridComplete(grid, points + [p], cellSize)
  {
    var ps := points + [p];
    var px, py := Cell(Footprint(p).x, cellSize), Cell(Footprint(p).y, cellSize);
    grid[px, py] := |ps|;
    forall x, y | 0 <= x < grid.Length0 && 0 <= y < grid.Length1
      ensures 0 <= grid[x, y] <= |ps|
      ensures grid[x, y] != 0 ==> InCell(Footprint(ps[grid[x, y] - 1]), x, y, cellSize)
    {
      if x != px || y != py {
        assert grid[x, y] == old(grid[x, y]);
        if grid[x, y] != 0 {
          assert ps[grid[x, y] - 1] == points[grid[x, y] - 1];
        }
      }
    }
    if old(GridComplete(grid, points, cellSize)) && old(grid[px, py]) == 0 {
      forall i | 0 <= i < |ps|
        ensures 0 <= Cell(Footprint(ps[i]).x, cellSize) < grid.Length0
        ensures 0 <= Cell(Footprint(ps[i]).y, cellSize) < grid.Length1
        ensures grid[Cell(Footprint(ps[i]).x, cellSize), Cell(Footprint(ps[i]).y, cellSize)] == i + 1
      {
        if i < |points| {
          assert ps[i] == points[i];
          var cx, cy := Cell(Footprint(points[i]).x, cellSize), Cell(Footprint(points[i]).y, cellSize);
          assert old(grid[cx, cy]) == i + 1;
        }
      }
    }
  }
}
