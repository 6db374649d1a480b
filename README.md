# Procedural sampling: Poisson-disc point placement, in Dafny

This project models the core of the Unity package *Unity-Procedural-Sampling*:

- `ProcedualBounds`: the box a sampler fills. Its footprint is `[0, Size.x) x [0, Size.z)`, and its vertical range is centred on 0.
- `NoiseSettings`: a 2D noise sampler. It dispatches to Perlin, simplex or Worley noise and adds a constant. A random accept/reject gate follows, then a linear remap onto `Range`.
- `PoissonDiscSampler`: grid-accelerated dart throwing.
  - `GeneratePoints` starts from the centre of the footprint. It repeatedly picks a spawn point at random and throws up to `SampleNumBeforeRejection` candidates into the annulus `[0.8 r, 2 r)` around it.
  - A candidate is accepted when `IsCandidateValid` finds no recorded point closer than `r`. It checks only the clamped 5x5 window of grid cells, each cell `r / sqrt 2` wide.
  - An accepted candidate becomes a point and a new spawn point. A spawn point whose throws all fail is dropped.
  - Generation stops when no spawn point remains or when the point cap is reached.

The modules follow the source:

- `Bounds` is `ProcedualBounds.cs`.
- `Noise` is `NoiseSettings.cs`.
- `PoissonDiscSampler` is `Poisson_Discs/PoissonDiscSampler.cs`.
- `SpatialGrid` holds the cell arithmetic and the grid facts that `PoissonDiscSampler.cs` relies on.
- `Random` is `UnityEngine.Random`, made explicit.
- `Numeric`, `Vectors`, `ProceduralPoints` and `Wrappers` are small value types.

State that the source updates in place stays state:

- `ProcedualBounds` is a class, because `Validate` rewrites `Size`.
- `PoissonDiscSampler.Settings` is a class, because `OnValidate` rewrites its fields and `GeneratePoints` rewrites `settings.Radius`.
- The occupancy grid is an `array2<int>` that the sampling loop writes cell by cell.
- `NoiseSettings` is a datatype, because nothing in the core changes it.

The headline results:

- Every point `GeneratePoints` returns lies in the plane `y == 0`, inside the footprint, with a radius of at least 0.5.
- It returns at most the cap: 2000 points, or 60000 when `LimitPoints` is off.
- When the grid allocation succeeds, it returns `null` exactly when a grid dimension would exceed 1500.
- It returns an empty list for a negative width or depth, without touching the settings.
- Without radius noise, every point carries the working radius `max(settings.Radius, 1)`, and any two points are at least that far apart. This rests on:
  - `IsCandidateValid` deciding exactly "inside the footprint and no recorded point in the window within `r`";
  - the window being wide enough (`r <= 2 * cellSize`);
  - a cell never holding two points (`2 * cellSize^2 == r^2`, which needs the exact square root of 2).

Foreign code is passed in as data:

- The noise functions form a `NoiseLibrary` of arbitrary functions.
- `(sin a, cos a)` for the angle of a draw is a `direction` function.
- The value of `Mathf.Sqrt(2)` is a number that `GeneratePoints` requires to be the exact square root of 2.
- The random source is a `RandomState`: the stream `InitState(seed)` selects and a read position. Each single-step operation states how many draws it consumes. These are `Value`, the two `Range` forms, the noise gate, `Sample2D`, `Propose`, `RejectionTest` and `RadiiNoiseSample`. `GeneratePoints` states only which stream it leaves the source on.

Where the code differs from its tooltips or from what one might expect, the model follows the code:

- The cap check `points.Count > maxPoints - 1` returns once `maxPoints` points exist. That is 2000 points, not 1999 as the `- 1` might suggest.
- `TestSample` draws once when luck admits and twice otherwise, so a gate consumes one or two draws.
- The `Threshold` tooltip says values above it are discarded. The code discards a sample when `noiseSample * Random.value < Threshold`, which removes low values.
- `Worley2x2` calls `noise.cellular` (the 3x3 window) and `Worley3x3` calls `noise.cellular2x2`. The model keeps this pairing as written.

## Model

| member | source | states |
|---|---|---|
| Bounds.ProcedualBounds.constructor | Runtime/ProcedualBounds.cs:15-18 | the box has exactly the given size |
| Bounds.ProcedualBounds.Validate | Runtime/ProcedualBounds.cs:20-26 | afterwards every axis is at least 0.1; an axis already at least 0.1 is kept and a smaller one becomes 0.1; a box that was already valid is unchanged (idempotence) |
| Bounds.ProcedualBounds.IsInside | Runtime/ProcedualBounds.cs:28-32 | a candidate inside has non-negative coordinates, and the box then has positive width and depth |
| Bounds.ProcedualBounds.IsInsideVertical | Runtime/ProcedualBounds.cs:34-37 | a height inside satisfies `-Size.y <= 2y <= Size.y`, so the range is non-empty only for `Size.y >= 0` |
| Bounds.ProcedualBounds.GetOffset | Runtime/ProcedualBounds.cs:41 | the offset is half the size: added to itself it gives `Size` |
| Bounds.ProcedualBounds.GetOffsetFrom | Runtime/ProcedualBounds.cs:40 | the corner plus half the size is the origin again |
| Bounds.VerticalClosed | Runtime/ProcedualBounds.cs:34-37 | both ends and the centre of the vertical range are inside it |
| Bounds.VerticalSymmetric | Runtime/ProcedualBounds.cs:34-37 | `y` is inside exactly when `-y` is |
| Bounds.IsInsideIgnoresHeight | Runtime/ProcedualBounds.cs:28-32 | the footprint test does not depend on `Size.y` |
| Bounds.EmptyFootprint | Runtime/ProcedualBounds.cs:28-32 | a box of zero or negative width or depth contains no candidate |
| Noise.DefaultNoiseSettings | Runtime/NoiseSettings.cs:56-67 | Perlin noise in local space with an ordered range; no constant is added to the raw value; threshold and luck are 0 |
| Noise.NoiseSettingsWith | Runtime/NoiseSettings.cs:69-76 | the five given fields are set; the unassigned fields keep their zero default, so no constant is added and luck never fires |
| Noise.EffectivePosition | Runtime/NoiseSettings.cs:94-95 | in local space the noise is read at the scaled position; in world space at that point displaced by the scaled x/z offset; with scale 1 in local space the position itself |
| Noise.NoiseValue | Runtime/NoiseSettings.cs:96-103 | the Perlin value is clamped into [0, 1]; the fallback branch yields 0 |
| Noise.RawSample | Runtime/NoiseSettings.cs:94-103 | with Perlin the raw value lies within 1 above `Amplitude * SampleOffset` |
| Noise.Remap01 | Runtime/NoiseSettings.cs:111-116 | 0 maps to `Range.x` and 1 maps to `Range.y`; values in [0, 1] land inside an ordered range |
| Noise.RemapInverse | Runtime/NoiseSettings.cs:111-116 | on a non-degenerate range the remap is inverted by `(s - lo) / (hi - lo)` |
| Noise.GatePasses | Runtime/NoiseSettings.cs:127-128 | luck of at least 1 always passes; a non-positive threshold passes every non-negative sample; with no luck, a positive threshold rejects every non-positive sample |
| Noise.GateDraws | Runtime/NoiseSettings.cs:127-128 | the gate consumes one or two draws |
| Noise.TestSample | Runtime/NoiseSettings.cs:125-130 | a first draw below `LuckThreshold` admits after one draw; otherwise a second draw is taken, and the sample is rejected exactly when `sample * draw < Threshold`; luck of at least 1 always admits; threshold 0 admits every non-negative sample |
| Noise.Sample2D | Runtime/NoiseSettings.cs:86-118 | `None` gives (valid, 1) and draws nothing; otherwise the verdict is the gate's on the raw value and the draws are the gate's; a rejected sample is 0; an accepted one is the remap of the raw value; with Perlin, no constant and an ordered range, an accepted sample lies in the range |
| Noise.LocalSpaceIgnoresOffset | Runtime/NoiseSettings.cs:94-95 | in local space the world offset does not change where noise is read |
| Noise.WorldSpaceIsShiftedLocal | Runtime/NoiseSettings.cs:94-95 | world space reads where local space reads after shifting by the offset's x and z; the offset's y never matters |
| Noise.PerlinRemapInRange | Runtime/NoiseSettings.cs:96-116 | with Perlin, no constant and an ordered range, the remapped value lies in the range |
| Random.InitState | Runtime/Poisson_Discs/PoissonDiscSampler.cs:56 | reseeding restarts at the first draw of the stream selected by the seed |
| Random.Value | Runtime/Poisson_Discs/PoissonDiscSampler.cs:118 | the next draw is returned and exactly one draw is consumed |
| Random.RangeFloat | Runtime/Poisson_Discs/PoissonDiscSampler.cs:120 | for `lo <= hi` the value lies in [lo, hi], and below `hi` when `lo < hi`; one draw is consumed |
| Random.RangeInt | Runtime/Poisson_Discs/PoissonDiscSampler.cs:88 | the spawn index lies in [lo, hi); one draw is consumed |
| Numeric.Max | Runtime/Poisson_Discs/PoissonDiscSampler.cs:58 | the larger of the two arguments |
| Numeric.Abs | Runtime/Poisson_Discs/PoissonDiscSampler.cs:99 | non-negative, and equal to the argument or its negation |
| Numeric.Clamp01 | Runtime/NoiseSettings.cs:98 | the result lies in [0, 1]; a value in [0, 1] is kept; values below or above are pinned to 0 or 1 |
| Numeric.Trunc | Runtime/Poisson_Discs/PoissonDiscSampler.cs:173-174 | the cast `(int)x` truncates toward zero: for `x >= 0`, `r <= x < r + 1`; for `x < 0`, `r - 1 < x <= r` |
| Numeric.CeilToInt | Runtime/Poisson_Discs/PoissonDiscSampler.cs:64 | the least integer not below `x`; non-negative for `x >= 0` |
| Numeric.MaxInt | Runtime/Poisson_Discs/PoissonDiscSampler.cs:176 | the larger of the two integers |
| Numeric.MinInt | Runtime/Poisson_Discs/PoissonDiscSampler.cs:177 | the smaller of the two integers |
| PoissonDiscSampler.Settings.constructor | Runtime/Poisson_Discs/PoissonDiscSampler.cs:25-32 | seed 0, the given radius, noise and attempt count, points limited |
| PoissonDiscSampler.Settings.OnValidate | Runtime/Poisson_Discs/PoissonDiscSampler.cs:34-38 | afterwards the radius is at least 0.08 and the attempt count at least 2; values already there are kept, so a second call changes nothing |
| PoissonDiscSampler.MaxPoints | Runtime/Poisson_Discs/PoissonDiscSampler.cs:154-156 | the cap is 2000 or 60000 |
| PoissonDiscSampler.WorkingRadius | Runtime/Poisson_Discs/PoissonDiscSampler.cs:59-60 | the working radius is at least 1 and at least the settings radius; it is the settings radius when that is at least 1 |
| PoissonDiscSampler.NoiseRadius | Runtime/Poisson_Discs/PoissonDiscSampler.cs:99-100 | a noise-modulated radius is at least 0.5; a rejected sample (0) gives back the settings radius; a sample of 1 gives 0.5 |
| PoissonDiscSampler.Propose | Runtime/Poisson_Discs/PoissonDiscSampler.cs:118-120 | one proposal consumes two draws; with a unit direction it lies in the annulus `[0.8 r, 2 r)` around the spawn centre |
| PoissonDiscSampler.AnnulusDistance | Runtime/Poisson_Discs/PoissonDiscSampler.cs:119-120 | a unit direction scaled by a distance in `[0.8 r, 2 r)` has that squared length |
| PoissonDiscSampler.IsCandidateValid | Runtime/Poisson_Discs/PoissonDiscSampler.cs:168-202 | valid exactly when the candidate is inside the footprint and no point recorded in the clamped 5x5 window is closer than the radius |
| PoissonDiscSampler.RejectionTest | Runtime/Poisson_Discs/PoissonDiscSampler.cs:114-129 | success returns the first valid proposal: every earlier one was invalid, and two draws were consumed per proposal made; failure means all `SampleNumBeforeRejection` proposals were invalid, the candidate is the zero vector, and exactly `2 * attempts` draws were consumed |
| PoissonDiscSampler.RadiiNoiseSample | Runtime/Poisson_Discs/PoissonDiscSampler.cs:131-142 | `None` gives 1 with no draws; otherwise the sample `Sample2D` produces, ignoring its verdict: the remapped value when the gate passes, else 0 |
| PoissonDiscSampler.CellSize | Runtime/Poisson_Discs/PoissonDiscSampler.cs:61 | the cell size is positive, and times `sqrt 2` it gives the radius |
| PoissonDiscSampler.CellDiagonalIsRadius | Runtime/Poisson_Discs/PoissonDiscSampler.cs:61 | a cell's diagonal is the radius (`2 cs^2 == r^2`), so `r <= 2 cs` |
| PoissonDiscSampler.WellPlacedNonNegative | Runtime/Poisson_Discs/PoissonDiscSampler.cs:171 | points inside the footprint have non-negative coordinates |
| PoissonDiscSampler.AcceptedPointPlaced | Runtime/Poisson_Discs/PoissonDiscSampler.cs:104-110 | an accepted point keeps every point in the plane, inside the footprint and at least 0.5 in radius; its cell is inside the allocated grid |
| PoissonDiscSampler.AcceptedPointSeparated | Runtime/Poisson_Discs/PoissonDiscSampler.cs:104-110 | without noise, an accepted point is at least the radius from every earlier point, so the points stay separated |
| PoissonDiscSampler.AcceptedCellFree | Runtime/Poisson_Discs/PoissonDiscSampler.cs:110 | without noise, the accepted point's cell is still empty when it is written |
| PoissonDiscSampler.AddPoint | Runtime/Poisson_Discs/PoissonDiscSampler.cs:104-110 | the point is appended, and the sampling invariant (grid soundness, placement and, without noise, completeness, common radius and separation) holds of the longer list |
| PoissonDiscSampler.SampleRegion | Runtime/Poisson_Discs/PoissonDiscSampler.cs:85-162 | the loop returns at most the cap, keeps the random source on its stream, and keeps the sampling invariant: every point well placed and recorded soundly; without noise, every point recorded in its cell, carrying the working radius and at least that far from every other |
| PoissonDiscSampler.GeneratePoints | Runtime/Poisson_Discs/PoissonDiscSampler.cs:49-83 | negative width or depth gives an empty list with nothing changed; otherwise the random source is reseeded and `settings.Radius` becomes `max(0.5, Radius)`; `null` exactly when a grid dimension exceeds 1500 (where the allocation succeeds); at most the cap; every point well placed; without noise, all points share the working radius and are pairwise at least that far apart; the loop is `SampleRegion` |
| SpatialGrid.Cell | Runtime/Poisson_Discs/PoissonDiscSampler.cs:173-174 | the cast truncates toward zero: a non-negative coordinate has a non-negative cell index and a negative one a non-positive index (the quotient bounds are `CellBounds`) |
| SpatialGrid.CellBounds | Runtime/Poisson_Discs/PoissonDiscSampler.cs:173-174 | a non-negative coordinate has a non-negative cell index `c` with `c <= v / cellSize < c + 1` |
| SpatialGrid.GridLength | Runtime/Poisson_Discs/PoissonDiscSampler.cs:64 | a non-negative extent gets a non-negative grid dimension |
| SpatialGrid.CellInRange | Runtime/Poisson_Discs/PoissonDiscSampler.cs:64 | a coordinate in `[0, extent)` has its cell inside the grid allocated for `extent`, so the write at line 110 is in bounds |
| SpatialGrid.SearchStart | Runtime/Poisson_Discs/PoissonDiscSampler.cs:176 | the window starts at 0 or two cells back, whichever is larger |
| SpatialGrid.SearchEnd | Runtime/Poisson_Discs/PoissonDiscSampler.cs:177 | the window ends at the last cell or two cells on, whichever is smaller |
| SpatialGrid.CellGap | Runtime/Poisson_Discs/PoissonDiscSampler.cs:173-177 | a coordinate less than two cells above another has a cell index at most two above |
| SpatialGrid.NearCells | Runtime/Poisson_Discs/PoissonDiscSampler.cs:173-177 | coordinates less than two cells apart have cell indices at most two apart |
| SpatialGrid.SameCell | Runtime/Poisson_Discs/PoissonDiscSampler.cs:173-174 | two coordinates in the same cell are less than a cell apart |
| SpatialGrid.AxisWithin | Runtime/Poisson_Discs/PoissonDiscSampler.cs:194-195 | a point closer than `m` is less than `m` away along each axis |
| SpatialGrid.RootBelow | Runtime/Poisson_Discs/PoissonDiscSampler.cs:195 | a square below `m^2` means the value lies in `(-m, m)` |
| SpatialGrid.NearAxisInWindow | Runtime/Poisson_Discs/PoissonDiscSampler.cs:176-180 | a coordinate less than two cells away, whose cell is in the grid, is inside the clamped search range |
| SpatialGrid.NearPointInWindow | Runtime/Poisson_Discs/PoissonDiscSampler.cs:176-184 | a point closer than two cells, whose cell is in the grid, lies in the clamped 5x5 window |
| SpatialGrid.ClearWindowKeepsDistance | Runtime/Poisson_Discs/PoissonDiscSampler.cs:182-200 | when every point is recorded in its cell and `r <= 2 cs`, a clear window means no point at all is closer than `r` |
| SpatialGrid.SameCellClose | Runtime/Poisson_Discs/PoissonDiscSampler.cs:173-174 | two points in one cell are less than a cell diagonal apart |
| SpatialGrid.ClearWindowFreeCell | Runtime/Poisson_Discs/PoissonDiscSampler.cs:110 | when `2 cs^2 <= r^2`, a clear window means the candidate's own cell is empty |
| SpatialGrid.SeparatedExtend | Runtime/Poisson_Discs/PoissonDiscSampler.cs:105-108 | a point at least `r` from all others keeps the list pairwise separated |
| SpatialGrid.Record | Runtime/Poisson_Discs/PoissonDiscSampler.cs:110 | writes the new point's 1-based index into its cell and leaves every other cell unchanged; every nonzero cell still names a point in that cell; when the cell was empty, every point stays recorded in its own cell |

## Left out

- Float rounding: all arithmetic is on mathematical reals. `float` overflow, `NaN` and rounding in `x / cellSize` are not modelled. `Mathf.CeilToInt` overflowing `int` for huge extents is not modelled either.
- `Mathf.Sqrt(2)`, `Mathf.Sin`/`Mathf.Cos` and the noise libraries are foreign code. They are parameters: an exact square root, a `direction` function and a `NoiseLibrary`. The unit length of `direction` is a hypothesis of `Propose`'s annulus clause, not a proved fact.
- The random generator's algorithm is not modelled. `RandomState` stands for the stream a seed selects. The single-step operations are fully determined by the state they read. The sampling loop's contracts are not (see `PoissonDiscSampler.SampleRegion` below).
- Random.RangeFloat: Unity's `Random.Range(float, float)` and `Random.value` can return the upper end. Draws here lie in `[0, 1)`, so the annulus is `[0.8 r, 2 r)`.
- Noise.TestSample: the clause "luck of at least 1 always admits" relies on draws below 1. In the source, `Random.value` can be exactly 1.0. At `LuckThreshold == 1` (the slider's maximum) such a draw skips the luck branch and goes on to the threshold test.
- Noise.GatePasses: the same applies to its clause "luck of at least 1 always passes".
- Random.RangeInt: requires `lo < hi`. Its only caller runs while the spawn list is non-empty, and Unity's behaviour on an empty range plays no part.
- The static fields `Settings.MinRadius` and `Settings.PointsLimit` are mutable in the source. They are constants here (0.08 and 2000).
- `ProcedualBounds` is a C# struct: `GeneratePoints` gets a copy. The class here is passed by reference, but `GeneratePoints` never writes it, so the difference is not observable in the core.
- A null `RadiiInfluencingNoise` (a `NullReferenceException` in the source) is not modelled. Settings always carry noise settings.
- The `_ => 0` dispatch branch can be reached only by an enum value outside the declared five. Here it is reached only by `None`, which `Sample2D` handles before dispatching.
- `Debug.Log`/`Debug.LogError` messages and the statistics counters (`iterationsBegun`, `numAccepted`, `numDiscarded`) only report, so they are left out.
- `GetOffset(Transform)` and `DrawRegionGizmo` read Unity transforms and draw editor gizmos. The `(Vector3 origin)` and parameterless offsets are modelled.
- The preview component, the editor utilities, the animation curve and the `GridSampler` stub are outside the sampling core.
- PoissonDiscSampler.AddPoint: states the appended list and the sampling invariant. The exact cell it writes is stated by `SpatialGrid.Record`, which it calls.
- PoissonDiscSampler.GeneratePoints: separation and the common radius are proved only without radius noise. With noise the source keeps no pairwise separation at all. A noise radius can exceed two cells, and then points beyond the 5x5 window are never checked. A noise radius below the cell diagonal lets two points share a cell, and the write at line 110 then overwrites the earlier one's index. All the source guarantees with noise is the per-window check that `IsCandidateValid` states. Even without noise, the no-overwrite and separation results depend on `Mathf.Sqrt(2)` being exact. As a float it is 1.41421353816986083984375, slightly below the square root of 2. So in the source the cell diagonal slightly exceeds `r`, and two points between `r` and that diagonal apart can share a cell, the later write overwriting the earlier index.
- PoissonDiscSampler.GeneratePoints: the grid allocation at line 64 happens before the size check at line 74. For a large enough region (say 1e6 by 1e6 with a working radius of 1, so about 1.4M by 1.4M cells) the allocation throws `OutOfMemoryException` or `OverflowException` in the source. In the model, `new` cannot fail, so such a region yields `None`. The `null`-iff-too-large clause holds only where the allocation succeeds.
- PoissonDiscSampler.SampleRegion: the contract states safety only: at most the cap, the stream kept, and the sampling invariant (placement, soundness, and completeness, common radius and separation without noise). It does not determine which points are returned, or in which order, or where the random source ends. An empty list would meet it. That a fixed seed reproduces the same points in acceptance order is true of the body but is not proved.
- PoissonDiscSampler.GeneratePoints: beyond the early exits, the reseed and the radius update, its contract inherits the safety-only contract of `SampleRegion`. It does not determine the returned list (`Some([])` would meet it), and reproducibility for a fixed seed is not proved.
- PoissonDiscSampler.GeneratePoints: termination is proved, bounded by the point cap and the spawn list. Maximality ("no further point fits") is not claimed, because sampling can stop with gaps.
