# rlefer placement core in Dafny

A model of the C++ core of rlefer, which places evenly spaced streamlines over a square
field of angles (Jobard and Lefer's method). The model covers:

- the read-only angle grid, `FlowField` (module `FlowFields`);
- the append-only curve record, `Curve` (module `Curves`);
- the saturating bucket index of committed points and its separation query,
  `DensityGrid` (module `Density`);
- the candidate seed points on either side of a curve, `SeedPointsQueue` and
  `collect_seedpoints` (module `Seeds`);
- the bidirectional integration of one streamline, `draw_curve` (module `Tracer`);
- the two placement drivers (module `Drivers`): frontier growth from one seed,
  `even_spaced_curves_impl`, and placement from a list of seeds,
  `non_overlapping_curves_impl`.

The code that changes state in place is modelled as classes and methods with loops, and
each method is proved equal to a value-level function:

- `Curve`, `DensityGrid` and `SeedPointsQueue` are classes.
- `DensityGrid` keeps its cells in an `array`.
- `DensityGrid.State()` reads the grid as a `GridState` value, and the mutating methods
  are proved to produce `WithCoord`, `WithPoints` and `Admits`.
- `DrawCurve` is proved to build `Trace`.
- `CollectSeedpoints` is proved to build `SeedPoints`.
- The driver methods are proved to build `EvenSpacedRun` and `NonOverlappingRun`.

The lemmas then state what the source promises about those functions.

Coordinates are reals. The math library (`cos`, `sin`, `atan2`, `M_PI`) is a parameter
of type `Geometry.Trig`. Distances are compared squared: `dist <= d_test` with
`d_test = d_sep - 0.01 d_sep > 0` becomes `dist² <= d_test²`. The C++ `(int)` cast is
`Geometry.Trunc`, which truncates toward zero.

Behaviour of the source kept as written:

- The frontier driver keeps curve 0 whatever its length. Only later curves face
  `min_steps_allowed` (`Drivers.EvenSpacedRunShape`).
- The frontier driver checks `n_curves` only before expanding each curve. All seed
  points of that curve are then offered, so the count can end above `n_curves`. The bound
  proved is `max(1, n_curves - 1 + 2 (max(1, n_steps) - 1))`.
- The pre-seeded driver uses `n_curves` only to reserve storage. Its run does not depend
  on it (`Drivers.NonOverlappingRunShape`).
- The neighbourhood clamp in `is_valid_next_step` bounds rows by the grid width and
  columns by the grid height. Both drivers build square grids, where this is harmless.
  `Density.SwappedClampLeavesNonSquareGrid` exhibits a non-square grid on which the scan
  leaves the grid.
- Direction tags follow the code:
  - tag 0 marks the seed and the pass that subtracts the step vector;
  - tag 1 marks the pass that adds it.

  The comment on `_direction` in `src/rlefer.h` describes them differently.
- The backward pass has at most `n_steps / 2 - 1` steps. The forward pass continues the
  same counter up to `n_steps`.

## Model

| member | source | states |
|---|---|---|
| Geometry.TruncTowardZero | src/rlefer.cpp:346-352 | the `(int)` cast drops the fractional part toward zero: within one unit of the value on the side of zero, and odd |
| FlowFields.FlowField.GetAngle | src/rlefer.cpp:364-368 | on a point inside the field, both truncated indices lie in [0, width), so the matrix read is in range, and the angle is the matrix entry at the floors of the coordinates |
| FlowFields.GetAngleReadsEnclosingCell | src/rlefer.cpp:354-368 | `off_boundaries` is false exactly when 0 < x < width and 0 < y < width; there each index is the coordinate's floor, the point lies in that unit cell, and `get_angle` returns that cell's matrix entry |
| Curves.Curve.constructor | src/rlefer.cpp:383-390 | a new curve has the given id, no steps and four empty vectors |
| Curves.Curve.InsertStep | src/rlefer.cpp:392-398 | appends exactly one entry to each of the four vectors, the new step id is the old step count, the count grows by one; the vectors keep length `steps_taken` and `step_id[i] == i` |
| Density.IndexInRange | src/rlefer.cpp:444-446 | a (column, row) inside the grid has a row-major index inside the cell vector |
| Density.WindowInGrid | src/rlefer.cpp:487-492 | on a square grid the clamped 3x3 block around an in-grid cell lies inside the grid |
| Density.SwappedClampLeavesNonSquareGrid | src/rlefer.cpp:489-492 | on a 5x3 grid the clamp, as written, lets the scan reach row 3 at index 16 of a 15-cell grid |
| Density.CrowdsMonotone | src/rlefer.cpp:505-511 | a point within `d_test` of a cell's stored points stays so after more points are appended |
| Density.GridState.WithCoord | src/rlefer.cpp:448-473 | off the grid (column or row <= 0 or >= the grid extent) nothing changes; otherwise only the point's own cell changes, it gains the point exactly when `space_used + 1 < capacity`, and every cell keeps at most `capacity - 1` points with `space_used` equal to the number of stored coordinates |
| Density.GridState.WithPoints | src/rlefer.cpp:475-480 | committing a curve's points keeps the grid well formed and only appends to cells |
| Density.AdmitsAntitone | src/rlefer.cpp:482-517 | a grid that only gained points admits no point a smaller grid rejected |
| Density.AdmittedIsSeparated | src/rlefer.cpp:496-516 | a point the grid admits lies more than `d_sep - 0.01 d_sep` from every point stored in the cells of its clamped block |
| Density.EmptyGrid | src/rlefer.cpp:411-426 | the new grid has `(int)(extent / d_sep)` cells per axis, each empty with the given capacity |
| Density.EmptyGridAdmits | src/rlefer.cpp:482-517 | an empty grid admits exactly the points that are not off the grid |
| Density.DensityGrid.constructor | src/rlefer.cpp:411-426 | the allocated cell array holds the empty grid described by `EmptyGrid` |
| Density.DensityGrid.InsertCoord | src/rlefer.cpp:459-473 | the in-place update of the cell array produces `WithCoord` of the old contents |
| Density.DensityGrid.InsertCurveCoords | src/rlefer.cpp:475-480 | inserting a curve's coordinates one by one, in order, produces `WithPoints` of the curve's points |
| Density.DensityGrid.ScanCell | src/rlefer.cpp:500-512 | the scan of one cell reports exactly whether some stored point lies within `d_test` |
| Density.DensityGrid.IsValidNextStep | src/rlefer.cpp:482-517 | the nested scan answers exactly `Admits`: false off the grid, false iff some point stored in the clamped block lies within `d_sep - 0.01 d_sep`; the grid is not changed |
| Seeds.SeedPointsLayout | src/rlefer.cpp:561-590 | no candidate for a curve of 0 or 1 points, otherwise `2 (steps_taken - 1)` of them: left then right candidate of each segment (i, i+1), in increasing i |
| Seeds.CandidatesAtSeparation | src/rlefer.cpp:571-583 | when cos² + sin² = 1 both candidates of a segment lie exactly `d_sep` from its first point |
| Seeds.SeedPointsQueue.constructor | src/rlefer.cpp:538-542 | a new queue is empty with nominal capacity `2 n_steps` |
| Seeds.SeedPointsQueue.IsEmpty | src/rlefer.cpp:544-546 | empty exactly when no point is stored |
| Seeds.SeedPointsQueue.InsertCoord | src/rlefer.cpp:548-552 | appends the point whatever the capacity, keeping `space_used` equal to the number of stored points |
| Seeds.SeedPointsQueue.InsertPoint | src/rlefer.cpp:554-557 | appends the point whatever the capacity, keeping `space_used` equal to the number of stored points |
| Seeds.CollectSeedpoints | src/rlefer.cpp:561-590 | the returned queue holds exactly `SeedPoints` of the curve's points, with capacity `2 steps_taken` |
| Tracer.Walk | src/rlefer.cpp:218-257 | a pass appends no more points than it has iterations left |
| Tracer.WalkFollowsField | src/rlefer.cpp:218-257 | each point of a pass is one step along the field from the point before it, taken from inside the field, and the grid admits it |
| Tracer.WalkStopsOnlyWhenForced | src/rlefer.cpp:218-257 | a pass that ends before its budget stopped because its last point is off the field or the next step is rejected |
| Tracer.PassGoesOnUnlessStopped | src/rlefer.cpp:218-257 | with budget left, a pass appends the next step exactly when it is not forced to stop |
| Tracer.TraceShape | src/rlefer.cpp:212-259 | a traced curve has the given id, the seed first with tag 0, between 1 and max(1, n_steps) points, tags a run of 0s then a run of 1s with at most max(1, n_steps / 2) zeros, and every point but the seed admitted by the grid |
| Tracer.TraceAssembled | src/rlefer.cpp:212-259 | the seed, then the backward pass with tag 0, then the forward pass with the remaining iterations and tag 1, is the traced curve |
| Tracer.ScenarioUniformField | src/rlefer.cpp:203-260 | with all angles 0 on a 10x10 field and 4 steps from (5, 5), the curve is (5,5), (4,5), (6,5), (7,5) with tags 0, 0, 1, 1 |
| Tracer.TakeStep | src/rlefer.cpp:219-234 | one loop iteration: it appends one step along the field exactly when the point is on the field and the grid admits the step, else the pass must stop; the curve gains nothing else |
| Tracer.RunPass | src/rlefer.cpp:218-257 | a loop of `draw_curve` appends exactly the pass's walk from the seed, with the pass's tag, and counts its steps |
| Tracer.DrawCurve | src/rlefer.cpp:203-260 | the curve built in place is the traced curve; the grid is only read |
| Drivers.InitialGrid | src/rlefer.cpp:56-60 | both drivers build a square, well-formed grid with separation `d_sep` |
| Drivers.OfferOutcome | src/rlefer.cpp:89-113 | one candidate seed either leaves the list and grid unchanged or appends the curve traced from it, with the next id, and commits its points; it appends exactly when the grid admits the seed and the curve has at least `min_steps_allowed` points |
| Drivers.OfferKeepsConsistent | src/rlefer.cpp:89-113 | one candidate seed keeps the state consistent: the grid holds exactly the curves in order, every curve was traced against the grid of the curves before it, and every curve from a given index on passed both tests |
| Drivers.OfferAllKeepsConsistent | src/rlefer.cpp:90-114 | offering a list of seeds keeps the state consistent, never removes or reorders a curve, and adds at most one curve per seed |
| Drivers.OfferAllSeedsFromList | src/rlefer.cpp:162-187 | every curve appended while offering a list starts at one of its seeds |
| Drivers.OfferAllIgnoresCurveCount | src/rlefer.cpp:158-188 | offering seeds does not depend on `n_curves` |
| Drivers.ConsistentCurveShape | src/rlefer.cpp:91-113 | curve k of a consistent state has id k and between 1 and max(1, n_steps) points |
| Drivers.ConsistentPointsAdmitted | src/rlefer.cpp:89-113 | every point of an accepted curve but the frontier's first seed was admitted by the grid holding the curves before it: the seed by the driver's test, the others by `draw_curve`'s test |
| Drivers.ConsistentPointsSeparated | src/rlefer.cpp:89-113 | the separation guarantee: each such point lies more than `d_sep - 0.01 d_sep` from every point the earlier curves left stored in its clamped block |
| Drivers.GrowKeepsConsistent | src/rlefer.cpp:84-115 | the frontier loop keeps the state consistent, only appends, and ends with at most max(current, n_curves - 1 + 2 (max(1, n_steps) - 1)) curves |
| Drivers.EvenSpacedRunShape | src/rlefer.cpp:63-117 | the frontier run has curve 0 traced from the start on the empty grid and kept whatever its length; every later curve passed both tests against the grid of the curves before it; the grid holds exactly the curves; between 1 and max(1, n_curves - 1 + 2 (max(1, n_steps) - 1)) curves |
| Drivers.NonOverlappingRunShape | src/rlefer.cpp:150-188 | the pre-seeded run: every curve passed both tests against the grid of the curves before it and starts at one of the seeds; ids are 0, 1, 2, ...; at most one curve per seed; the run is the same for any `n_curves` |
| Drivers.ScenarioCloseSeeds | src/rlefer.cpp:150-188 | two seeds one unit apart in one cell with `d_sep = 5`: the second is rejected and the run has one curve |
| Drivers.OfferSeed | src/rlefer.cpp:92-113 | the loop body acting on the curve vector and the grid in place produces `Offer` of the old state |
| Drivers.OfferSeeds | src/rlefer.cpp:91-114 | the inner loop over the candidate seeds produces `OfferAll` of the old state, seeds in list order |
| Drivers.EvenSpacedCurves | src/rlefer.cpp:63-117 | the curves `even_spaced_curves_impl` collects are, one for one, the curves of `EvenSpacedRun` |
| Drivers.NonOverlappingCurves | src/rlefer.cpp:150-188 | the curves `non_overlapping_curves_impl` collects are, one for one, the curves of `NonOverlappingRun` |

## Left out

- Rcpp glue is not modelled:
  - argument conversion from `NumericMatrix` and `List`;
  - `_curves_as_df` with its `Rprintf` logging, which turns the curve vector into an R
    data frame.

  The drivers return the vector of curves.
- IEEE-754 arithmetic is not modelled:
  - coordinates are reals;
  - `cos`, `sin`, `atan2` and `M_PI` are uninterpreted parameters;
  - `sqrt` and `pow` in `distance` are replaced by a comparison of squares, which is
    exact on reals since `d_test > 0`.
- Integer widths are not modelled:
  - `(int)` of a double outside the `int` range (undefined in C++);
  - overflow of `grid_width * grid_height` and of `n_steps * 2`.

  All are unbounded integers here.
- The `DensityGrid` constructor reserves its cell vector and then indexes it without
  resizing, which is undefined behaviour. The model builds what is evidently intended:
  `width * height` empty cells of the given capacity.
- The `SeedPointsQueue(n_steps)` built at the top of each frontier iteration is
  immediately overwritten, so it is not modelled.
- `reserve` calls are ignored: `Curve(id, n_steps)` drops `n_steps` and
  `curves.reserve(n_curves)` has no counterpart. Only `SeedPointsQueue`'s `_capacity`,
  a field of the class, is kept.
- Drivers.ConsistentPointsSeparated: separation is stated against the points the grid stored, not curve against curve, because:
  - a cell at capacity drops further points;
  - points off the grid are never stored;
  - the seed of the frontier's curve 0 is never tested;
  - the points of one curve are not tested against each other, since the grid changes only after the curve is drawn.
- Density.DensityGrid.IsValidNextStep: requires a square grid, which is all either driver
  builds. On a non-square grid the swapped clamp can read past the cell vector
  (`Density.SwappedClampLeavesNonSquareGrid`).
  - `Density.GridState.Admits` skips such cells rather than modelling the out-of-range
    read.
  - `Tracer.TakeStep`, `Tracer.RunPass` and `Tracer.DrawCurve` inherit the requirement.
- Drivers.Config.Valid: requires `d_sep > 0`, a matrix of at least `width x width` and a
  field width > 0, none of which the source checks. It also requires non-negative
  `n_steps` and `n_curves`, for which `reserve` throws.
- The two headers hold declarations and the `Curve` field layout (src/rlefer.h:41-53),
  which the `Curve` class follows. The declarations over `double**` fields in the
  installed header are not part of this model.
