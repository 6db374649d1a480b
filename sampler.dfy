/**
 * `PoissonDiscSampler`: grid-accelerated dart throwing over the footprint of
 * a `ProcedualBounds`.
 *
 * Foreign calls become a `Host` of oracles: the noise library, the unit
 * direction `(sin a, cos a)` for the angle `a = 2 pi u` of a draw `u`, and
 * the value of `Mathf.Sqrt(2)`. The global random source is threaded through
 * as a `RandomState`.
 */
module PoissonDiscSampler {
  import opened Wrappers
  import opened Vectors
  import opened Numeric
  import opened Random
  import opened Bounds
  import opened ProceduralPoints
  import opened SpatialGrid
  import Noise

  /** `Settings.MinRadius`: the radius `OnValidate` enforces. */
  const MinRadius: real := 0.08
  /** `Settings.PointsLimit`: the cap when `LimitPoints` is set. */
  const PointsLimit: int := 2000
  /** The fixed cap when `LimitPoints` is not set. */
  const UnlimitedPoints: int := 60000
  /** The largest grid dimension generation accepts. */
  const MaxGridLength: int := 1500
  /** The smallest gap generation lets a radius shrink to. */
  const MinGap: real := 0.5

  datatype Host = Host(noise: Noise.NoiseLibrary, direction: Unit -> Vec2, sqrt2: real)

  /** The host's square root of two is the exact one. */
  predicate ExactSqrt2(host: Host) {
    host.sqrt2 > 0.0 && host.sqrt2 * host.sqrt2 == 2.0
  }

  class Settings {
    var Seed: int
    var Radius: real
    var SampleNumBeforeRejection: int
    var RadiiInfluencingNoise: Noise.NoiseSettings
    var LimitPoints: bool

    constructor (radius: real, radiiInfluencingNoise: Noise.NoiseSettings, sampleNumBeforeRejection: int)
      ensures Seed == 0 && Radius == radius && SampleNumBeforeRejection == sampleNumBeforeRejection
      ensures RadiiInfluencingNoise == radiiInfluencingNoise && LimitPoints
    {
      Seed := 0;
      Radius := radius;
      SampleNumBeforeRejection := sampleNumBeforeRejection;
      RadiiInfluencingNoise := radiiInfluencingNoise;
      LimitPoints := true;
    }

    /** The floors `OnValidate` establishes. */
    predicate IsValidated()
      reads this
    {
      Radius >= MinRadius && SampleNumBeforeRejection >= 2
    }

    /**
     * Raises the radius to at least `MinRadius` and the attempt count to at
     * least 2; values already there are kept, so a second call changes nothing.
     */
    method OnValidate()
      modifies this`Radius, this`SampleNumBeforeRejection
      ensures IsValidated()
      ensures old(Radius) >= MinRadius ==> Radius == old(Radius)
      ensures old(Radius) < MinRadius ==> Radius == MinRadius
      ensures old(SampleNumBeforeRejection) >= 2 ==> SampleNumBeforeRejection == old(SampleNumBeforeRejection)
      ensures old(SampleNumBeforeRejection) < 2 ==> SampleNumBeforeRejection == 2
      ensures old(IsValidated()) ==> Radius == old(Radius) && SampleNumBeforeRejection == old(SampleNumBeforeRejection)
    {
      Radius := Max(MinRadius, Radius);
      SampleNumBeforeRejection := MaxInt(2, SampleNumBeforeRejection);
    }
  }

  /** The output cap: `PointsLimit` when limited, else the fixed 60000. */
  function MaxPoints(limitPoints: bool): (n: int)
    ensures n == PointsLimit || n == UnlimitedPoints
    ensures 0 < n <= UnlimitedPoints
  {
    if limitPoints then PointsLimit else UnlimitedPoints
  }

  /**
   * The radius the run starts with, from the (already clamped) settings
   * radius: never below 1, and the settings radius when that is larger.
   */
  function WorkingRadius(settingsRadius: real): (r: real)
    ensures r >= 1.0 && r >= settingsRadius
    ensures settingsRadius >= 1.0 ==> r == settingsRadius
    ensures settingsRadius < 1.0 ==> r == 1.0
  {
    Max(settingsRadius, 1.0)
  }

  /**
   * The radius after a noise modulation `m`: `|settingsRadius * (1 - m)|`,
   * floored at `MinGap`. A rejected noise sample (`m == 0`) gives back the
   * settings radius; `m == 1` gives the floor.
   */
  function NoiseRadius(settingsRadius: real, m: real): (r: real)
    ensures r >= MinGap
    ensures m == 0.0 && settingsRadius >= MinGap ==> r == settingsRadius
    ensures m == 1.0 ==> r == MinGap
  {
    Max(MinGap, Abs(settingsRadius * (1.0 - m)))
  }

  /**
   * One proposal: a draw for the angle, a draw for the distance in
   * [0.8 r, 2 r), and the point that far from the centre in that direction.
   * For a unit direction the proposal lies in the annulus between 0.8 r
   * and 2 r around the centre (compared squared).
   */
  function Propose(spawnCentre: Vec2, radius: real, direction: Unit -> Vec2, rng: RandomState): (d: Draw<Vec2>)
    requires radius > 0.0
    ensures d.rest == rng.Advance(2)
    ensures SqLength2(direction(rng.Peek(0))) == 1.0 ==>
      0.64 * radius * radius <= SqDist2(d.value, spawnCentre) < 4.0 * radius * radius
  {
    var angle := Value(rng);
    var dir := direction(angle.value);
    var dist := RangeFloat(angle.rest, 0.8 * radius, 2.0 * radius);
    var candidate := Add2(spawnCentre, Scale2(dir, dist.value));
    AnnulusDistance(dir, dist.value, radius);
    Draw(candidate, dist.rest)
  }

  /** A unit direction scaled by a distance in [0.8 r, 2 r) has that length, squared. */
  lemma AnnulusDistance(dir: Vec2, dist: real, radius: real)
    requires radius > 0.0 && 0.8 * radius <= dist < 2.0 * radius
    ensures SqLength2(dir) == 1.0 ==>
      0.64 * radius * radius <= SqLength2(Scale2(dir, dist)) < 4.0 * radius * radius
  {
    var v := Scale2(dir, dist);
    assert SqLength2(v) == dist * dist * SqLength2(dir);
    var low := 0.8 * radius;
    var high := 2.0 * radius;
    assert low * low <= dist * dist by {
      assert (dist - low) * (dist + low) >= 0.0;
    }
    assert dist * dist < high * high by {
      assert (high - dist) * (high + dist) > 0.0;
    }
  }

  /** The proposal made after `k` earlier proposals (two draws each). */
  function ProposalAt(spawnCentre: Vec2, radius: real, direction: Unit -> Vec2, rng: RandomState, k: nat): Vec2
    requires radius > 0.0
  {
    Propose(spawnCentre, radius, direction, rng.Advance(2 * k)).value
  }

  /** What `IsCandidateValid` decides: inside the footprint, and a clear window. */
  ghost predicate CandidateValid(candidate: Vec2, bounds: ProcedualBounds, radius: real, cellSize: real,
                                 points: seq<ProceduralPoint>, grid: array2<int>)
    requires cellSize > 0.0 && GridIndexed(grid, |points|)
    reads bounds, grid
  {
    bounds.IsInside(candidate) && WindowClear(grid, points, candidate, radius, cellSize)
  }

  /**
   * `IsCandidateValid`: rejects a candidate outside the footprint, then scans
   * the clamped 5x5 window of cells around it and rejects at the first
   * recorded point whose squared distance is below `radius * radius`.
   */
  method IsCandidateValid(candidate: Vec2, bounds: ProcedualBounds, radius: real, cellSize: real,
                          points: seq<ProceduralPoint>, grid: array2<int>)
    returns (valid: bool)
    requires cellSize > 0.0 && GridIndexed(grid, |points|)
    ensures valid <==> CandidateValid(candidate, bounds, radius, cellSize, points, grid)
  {
    if !bounds.IsInside(candidate) {
      return false;
    }
    var cellX := Cell(candidate.x, cellSize);
    var cellY := Cell(candidate.y, cellSize);

    var searchStartX := SearchStart(cellX);
    var searchEndX := SearchEnd(cellX, grid.Length0);
    var searchStartY := SearchStart(cellY);
    var searchEndY := SearchEnd(cellY, grid.Length1);

    var x := searchStartX;
    while x <= searchEndX
      invariant searchStartX <= x
      invariant forall x', y' ::
        searchStartX <= x' < x && x' <= searchEndX && searchStartY <= y' <= searchEndY && grid[x', y'] != 0 ==>
        SqDist2(candidate, Footprint(points[grid[x', y'] - 1])) >= radius * radius
    {
      var y := searchStartY;
      while y <= searchEndY
        invariant searchStartY <= y
        invariant forall y' :: searchStartY <= y' < y && y' <= searchEndY && grid[x, y'] != 0 ==>
          SqDist2(candidate, Footprint(points[grid[x, y'] - 1])) >= radius * radius
      {
        var pointIndex := grid[x, y] - 1;
        if pointIndex != -1 {
          var point := points[pointIndex].Position;
          var point2D := Vec2(point.x, point.z);
          var sqrDistance := SqDist2(candidate, point2D);
          if sqrDistance < radius * radius {
            return false;
          }
        }
        y := y + 1;
      }
      x := x + 1;
    }
    return true;
  }

  /**
   * `RejectionTest`: up to `attempts` proposals around the spawn centre; the
   * first valid one is returned. On failure the candidate is the zero vector
   * and exactly two draws per attempt have been consumed.
   */
  method RejectionTest(spawnCentre: Vec2, attempts: int, bounds: ProcedualBounds, radius: real, cellSize: real,
                       points: seq<ProceduralPoint>, grid: array2<int>, direction: Unit -> Vec2, rng: RandomState)
    returns (found: bool, candidate: Vec2, rngOut: RandomState)
    requires radius > 0.0 && cellSize > 0.0 && GridIndexed(grid, |points|)
    ensures found ==> CandidateValid(candidate, bounds, radius, cellSize, points, grid)
    ensures found ==> exists k: nat ::
      (&& k < attempts
       && candidate == ProposalAt(spawnCentre, radius, direction, rng, k)
       && rngOut == rng.Advance(2 * (k + 1))
       && forall j: nat :: j < k ==>
            !CandidateValid(ProposalAt(spawnCentre, radius, direction, rng, j), bounds, radius, cellSize, points, grid))
    ensures !found ==> candidate == Vec2(0.0, 0.0) && rngOut == rng.Advance(2 * MaxInt(attempts, 0))
    ensures !found ==> forall j: nat :: j < attempts ==>
      !CandidateValid(ProposalAt(spawnCentre, radius, direction, rng, j), bounds, radius, cellSize, points, grid)
  {
    var i := 0;
    rngOut := rng;
    while i < attempts
      invariant 0 <= i && (attempts >= 0 ==> i <= attempts) && (attempts < 0 ==> i == 0)
      invariant rngOut == rng.Advance(2 * i)
      invariant forall j: nat :: j < i ==>
        !CandidateValid(ProposalAt(spawnCentre, radius, direction, rng, j), bounds, radius, cellSize, points, grid)
    {
      var proposal := Propose(spawnCentre, radius, direction, rngOut);
      candidate := proposal.value;
      rngOut := proposal.rest;
      assert candidate == ProposalAt(spawnCentre, radius, direction, rng, i);
      var valid := IsCandidateValid(candidate, bounds, radius, cellSize, points, grid);
      if valid {
        return true, candidate, rngOut;
      }
      i := i + 1;
    }
    return false, Vec2(0.0, 0.0), rngOut;
  }

  /**
   * `RadiiNoiseSample`: 1 for `None`, otherwise the sample `Sample2D`
   * produces at the candidate, whatever its verdict (a rejected sample is 0).
   */
  method RadiiNoiseSample(noise: Noise.NoiseSettings, lib: Noise.NoiseLibrary, candidate: Vec2, offsetWS: Vec3, rng: RandomState)
    returns (m: real, rngOut: RandomState)
    ensures noise.Algorithm == Noise.None ==> m == 1.0 && rngOut == rng
    ensures noise.Algorithm != Noise.None ==>
      var raw := Noise.RawSample(noise, lib, candidate, offsetWS);
      && rngOut == rng.Advance(Noise.GateDraws(noise, rng))
      && m == (if Noise.GatePasses(noise, raw, rng) then Noise.Remap01(noise.Range.x, noise.Range.y, raw) else 0.0)
  {
    if noise.Algorithm == Noise.None {
      return 1.0, rng;
    }
    var _, sample, rest := Noise.Sample2D(noise, lib, candidate, offsetWS, rng);
    return sample, rest;
  }

  /** `radius / Mathf.Sqrt(2)`: the grid's cell size for a radius. */
  function CellSize(radius: real, sqrt2: real): (cs: real)
    requires radius > 0.0 && sqrt2 > 0.0
    ensures cs > 0.0
    ensures cs * sqrt2 == radius
  {
    var cs := radius / sqrt2;
    ScaleOrder(0.0, cs, sqrt2);
    ScaleOrder(cs, 0.0, sqrt2);
    cs
  }

  /**
   * With the exact square root of two, a cell's diagonal is the radius:
   * `2 * cs * cs == radius * radius`. Hence `radius <= 2 cs` (the 5x5 window
   * reaches every point closer than the radius) and two points sharing a
   * cell are closer than the radius.
   */
  lemma CellDiagonalIsRadius(radius: real, host: Host)
    requires radius > 0.0 && ExactSqrt2(host)
    ensures 2.0 * CellSize(radius, host.sqrt2) * CellSize(radius, host.sqrt2) == radius * radius
    ensures radius * radius <= 4.0 * CellSize(radius, host.sqrt2) * CellSize(radius, host.sqrt2)
  {
    var cs := CellSize(radius, host.sqrt2);
    var s := host.sqrt2;
    calc {
      radius * radius;
      (cs * s) * (cs * s);
      cs * cs * (s * s);
      { assert s * s == 2.0; }
      cs * cs * 2.0;
    }
    assert cs * cs >= 0.0;
  }

  /**
   * The grid generation would allocate for these settings has a dimension
   * over `MaxGridLength`, on a region with no negative width or depth.
   */
  ghost predicate GridTooLarge(size: Vec3, settingsRadius: real, sqrt2: real)
    requires sqrt2 > 0.0
  {
    var cellSize := CellSize(WorkingRadius(settingsRadius), sqrt2);
    && 0.0 <= size.x && 0.0 <= size.z
    && (GridLength(size.x, cellSize) > MaxGridLength || GridLength(size.z, cellSize) > MaxGridLength)
  }

  /** Every point lies in the sampling plane, inside the footprint, with a radius of at least `MinGap`. */
  ghost predicate WellPlaced(points: seq<ProceduralPoint>, bounds: ProcedualBounds)
    reads bounds
  {
    forall i :: 0 <= i < |points| ==>
      points[i].Position.y == 0.0 && bounds.IsInside(Footprint(points[i])) && points[i].Radius >= MinGap
  }

  /** Every point carries the same radius. */
  ghost predicate AllRadius(points: seq<ProceduralPoint>, radius: real) {
    forall i :: 0 <= i < |points| ==> points[i].Radius == radius
  }

  /** Points inside the footprint have non-negative coordinates. */
  lemma WellPlacedNonNegative(points: seq<ProceduralPoint>, bounds: ProcedualBounds)
    requires WellPlaced(points, bounds)
    ensures NonNegative(points)
  {
  }

  /**
   * An accepted candidate, made a point in the plane with a radius of at
   * least `MinGap`, keeps the points well placed, and its cell is inside
   * the grid generation allocated for the footprint.
   */
  lemma AcceptedPointPlaced(grid: array2<int>, points: seq<ProceduralPoint>, point: ProceduralPoint,
                            bounds: ProcedualBounds, radius: real, cellSize: real)
    requires cellSize > 0.0 && GridIndexed(grid, |points|)
    requires grid.Length0 == GridLength(bounds.Size.x, cellSize) && grid.Length1 == GridLength(bounds.Size.z, cellSize)
    requires WellPlaced(points, bounds)
    requires CandidateValid(Footprint(point), bounds, radius, cellSize, points, grid)
    requires point.Position.y == 0.0 && point.Radius >= MinGap
    ensures WellPlaced(points + [point], bounds)
    ensures 0 <= Cell(Footprint(point).x, cellSize) < grid.Length0
    ensures 0 <= Cell(Footprint(point).y, cellSize) < grid.Length1
  {
    var c := Footprint(point);
    CellInRange(c.x, bounds.Size.x, cellSize);
    CellInRange(c.y, bounds.Size.z, cellSize);
    var ps := points + [point];
    forall i | 0 <= i < |ps|
      ensures ps[i].Position.y == 0.0 && bounds.IsInside(Footprint(ps[i])) && ps[i].Radius >= MinGap
    {
      if i < |points| {
        assert ps[i] == points[i];
      }
    }
  }

  /**
   * Without radius noise, a candidate whose window is clear at the working
   * radius is that far from every point, so the points stay separated.
   */
  lemma AcceptedPointSeparated(grid: array2<int>, points: seq<ProceduralPoint>, point: ProceduralPoint,
                               radius: real, cellSize: real)
    requires cellSize > 0.0 && radius * radius <= 4.0 * cellSize * cellSize
    requires GridIndexed(grid, |points|) && GridComplete(grid, points, cellSize)
    requires NonNegative(points) && 0.0 <= Footprint(point).x && 0.0 <= Footprint(point).y
    requires Separated(points, radius)
    requires WindowClear(grid, points, Footprint(point), radius, cellSize)
    ensures Separated(points + [point], radius)
  {
    ClearWindowKeepsDistance(grid, points, Footprint(point), radius, cellSize);
    SeparatedExtend(points, point, radius);
  }

  /**
   * Without radius noise, the cell of a candidate whose window is clear at
   * the working radius is still empty, so recording it loses no point.
   */
  lemma AcceptedCellFree(grid: array2<int>, points: seq<ProceduralPoint>, point: ProceduralPoint,
                         radius: real, cellSize: real)
    requires cellSize > 0.0 && 2.0 * cellSize * cellSize == radius * radius
    requires GridSound(grid, points, cellSize)
    requires NonNegative(points) && 0.0 <= Footprint(point).x && 0.0 <= Footprint(point).y
    requires 0 <= Cell(Footprint(point).x, cellSize) < grid.Length0
    requires 0 <= Cell(Footprint(point).y, cellSize) < grid.Length1
    requires WindowClear(grid, points, Footprint(point), radius, cellSize)
    ensures grid[Cell(Footprint(point).x, cellSize), Cell(Footprint(point).y, cellSize)] == 0
  {
    ClearWindowFreeCell(grid, points, Footprint(point), radius, cellSize);
  }

  /**
   * What the sampling loop keeps true of the grid and the points: every
   * nonzero cell names a point in that cell, every point is in the plane,
   * inside the footprint and at least `MinGap` in radius; without radius
   * noise, every point is also recorded in its own cell, carries the working
   * radius and is that far from every other point.
   */
  ghost predicate Sampling(grid: array2<int>, points: seq<ProceduralPoint>, bounds: ProcedualBounds,
                           cellSize: real, radius: real, noNoise: bool)
    requires cellSize > 0.0
    reads grid, bounds
  {
    && GridSound(grid, points, cellSize)
    && WellPlaced(points, bounds)
    && (noNoise ==>
          && GridComplete(grid, points, cellSize)
          && Separated(points, radius)
          && AllRadius(points, radius))
  }

  /**
   * Accepts `point`, built from a candidate that passed `IsCandidateValid`
   * at `testedRadius`: appends it to the points and writes its 1-based index
   * into its cell. The sampling invariant carries over to the longer list.
   */
  method AddPoint(grid: array2<int>, points: seq<ProceduralPoint>, point: ProceduralPoint, bounds: ProcedualBounds,
                  cellSize: real, ghost testedRadius: real, ghost radius: real, ghost noNoise: bool)
    returns (grown: seq<ProceduralPoint>)
    requires cellSize > 0.0 && 2.0 * cellSize * cellSize == radius * radius
    requires radius * radius <= 4.0 * cellSize * cellSize
    requires grid.Length0 == GridLength(bounds.Size.x, cellSize) && grid.Length1 == GridLength(bounds.Size.z, cellSize)
    requires Sampling(grid, points, bounds, cellSize, radius, noNoise)
    requires CandidateValid(Footprint(point), bounds, testedRadius, cellSize, points, grid)
    requires point.Position.y == 0.0 && point.Radius >= MinGap
    requires noNoise ==> testedRadius == radius && point.Radius == radius
    modifies grid
    ensures grown == points + [point]
    ensures Sampling(grid, grown, bounds, cellSize, radius, noNoise)
  {
    AcceptedPointPlaced(grid, points, point, bounds, testedRadius, cellSize);
    if noNoise {
      WellPlacedNonNegative(points, bounds);
      AcceptedCellFree(grid, points, point, radius, cellSize);
      AcceptedPointSeparated(grid, points, point, radius, cellSize);
    }
    Record(grid, points, point, cellSize);
    grown := points + [point];
    if noNoise {
      forall i | 0 <= i < |grown|
        ensures grown[i].Radius == radius
      {
        if i < |points| {
          assert grown[i] == points[i];
        }
      }
    }
  }

  /**
   * The sampling loop of `GeneratePoints`. While spawn points remain, one is
   * picked at random; it either spawns an accepted point, which becomes a
   * spawn point in turn, or is dropped. The loop stops early once the cap is
   * reached. `radius` is the working radius and `settingsRadius` the
   * (raised) settings radius the noise modulates. The sampling invariant
   * holds of the points returned, and there are at most the cap.
   */
  method SampleRegion(grid: array2<int>, spawnPoints: seq<Vec2>, bounds: ProcedualBounds, cellSize: real,
                      radius: real, settingsRadius: real, noise: Noise.NoiseSettings, attempts: int,
                      limitPoints: bool, offsetWS: Vec3, host: Host, rng: RandomState)
    returns (points: seq<ProceduralPoint>, rngOut: RandomState)
    requires cellSize > 0.0 && radius >= MinGap
    requires 2.0 * cellSize * cellSize == radius * radius && radius * radius <= 4.0 * cellSize * cellSize
    requires grid.Length0 == GridLength(bounds.Size.x, cellSize) && grid.Length1 == GridLength(bounds.Size.z, cellSize)
    requires Sampling(grid, [], bounds, cellSize, radius, noise.Algorithm == Noise.None)
    modifies grid
    ensures |points| <= MaxPoints(limitPoints)
    ensures Sampling(grid, points, bounds, cellSize, radius, noise.Algorithm == Noise.None)
    ensures rngOut.generator == rng.generator && rngOut.stream == rng.stream
  {
    ghost var noNoise := noise.Algorithm == Noise.None;
    var spawns := spawnPoints;
    var currentRadius := radius;
    points := [];
    rngOut := rng;
    while |spawns| > 0
      invariant rngOut.generator == rng.generator && rngOut.stream == rng.stream
      invariant |points| < MaxPoints(limitPoints)
      invariant currentRadius >= MinGap
      invariant noNoise ==> currentRadius == radius
      invariant Sampling(grid, points, bounds, cellSize, radius, noNoise)
      decreases 2 * (MaxPoints(limitPoints) - |points|) + |spawns|
    {
      var pick := RangeInt(rngOut, 0, |spawns|);
      var spawnIndex := pick.value;
      rngOut := pick.rest;
      var spawnCentre := spawns[spawnIndex];

      var candidateAccepted, candidate;
      candidateAccepted, candidate, rngOut := RejectionTest(spawnCentre, attempts, bounds, currentRadius, cellSize,
                                                            points, grid, host.direction, rngOut);
      if candidateAccepted {
        ghost var testedRadius := currentRadius;
        if noise.Algorithm != Noise.None {
          var radiiNoiseSample;
          radiiNoiseSample, rngOut := RadiiNoiseSample(noise, host.noise, candidate, offsetWS, rngOut);
          currentRadius := NoiseRadius(settingsRadius, radiiNoiseSample);
        }

        var point := ProceduralPoint(Vec3(candidate.x, 0.0, candidate.y), currentRadius);
        points := AddPoint(grid, points, point, bounds, cellSize, testedRadius, radius, noNoise);
        spawns := spawns + [candidate];
      } else {
        spawns := spawns[..spawnIndex] + spawns[spawnIndex + 1..];
      }

      var maxPoints := MaxPoints(limitPoints);
      if |points| > maxPoints - 1 {
        return points, rngOut;
      }
    }
  }

  /**
   * `GeneratePoints`. A region with negative width or depth yields an empty
   * list before anything else happens. Otherwise the random source is
   * reseeded, `settings.Radius` is raised to at least `MinGap`, the working
   * radius is that or 1, whichever is larger, and the grid is allocated for
   * it; a grid dimension over `MaxGridLength` yields no list (`null`).
   * Otherwise `SampleRegion` fills the region from its centre.
   * Every returned point is in the plane, inside the footprint, and at least
   * `MinGap` in radius; without radius noise all share the working radius and
   * any two are at least that far apart.
   */
  method GeneratePoints(seed: int, settings: Settings, offsetWS: Vec3, bounds: ProcedualBounds, host: Host, rng: RandomState)
    returns (result: Option<seq<ProceduralPoint>>, rngOut: RandomState)
    requires ExactSqrt2(host)
    modifies settings`Radius
    ensures bounds.Size.x < 0.0 || bounds.Size.z < 0.0 ==>
      result == Some([]) && rngOut == rng && settings.Radius == old(settings.Radius)
    ensures !(bounds.Size.x < 0.0 || bounds.Size.z < 0.0) ==>
      && settings.Radius == Max(MinGap, old(settings.Radius))
      && rngOut.generator == rng.generator && rngOut.stream == rng.generator(seed)
    ensures result.None? <==> GridTooLarge(bounds.Size, settings.Radius, host.sqrt2)
    ensures result.Some? ==> |result.value| <= MaxPoints(settings.LimitPoints)
    ensures result.Some? ==> WellPlaced(result.value, bounds)
    ensures result.Some? && settings.RadiiInfluencingNoise.Algorithm == Noise.None ==>
      && AllRadius(result.value, WorkingRadius(settings.Radius))
      && Separated(result.value, WorkingRadius(settings.Radius))
  {
    if bounds.Size.x < 0.0 || bounds.Size.z < 0.0 {
      return Some([]), rng;
    }

    var r := InitState(rng, seed);

    settings.Radius := Max(MinGap, settings.Radius);
    var radius := settings.Radius;
    radius := Max(radius, 1.0);
    var cellSize := CellSize(radius, host.sqrt2);
    CellDiagonalIsRadius(radius, host);

    var grid := new int[GridLength(bounds.Size.x, cellSize), GridLength(bounds.Size.z, cellSize)]((_, _) => 0);
    var spawnPoints: seq<Vec2> := [Vec2(bounds.Size.x / 2.0, bounds.Size.z / 2.0)];

    var maxLength := MaxGridLength;
    if grid.Length0 > maxLength || grid.Length1 > maxLength {
      return None, r;
    }

    var points;
    points, r := SampleRegion(grid, spawnPoints, bounds, cellSize, radius, settings.Radius,
                              settings.RadiiInfluencingNoise, settings.SampleNumBeforeRejection,
                              settings.LimitPoints, offsetWS, host, r);
    return Some(points), r;
  }
}
