/** The two placement drivers: frontier growth from one seed (`even_spaced_curves_impl`)
    and placement from a list of seeds (`non_overlapping_curves_impl`). */
module Drivers {
  import opened Geometry
  import opened FlowFields
  import opened Curves
  import opened Density
  import opened Seeds
  import opened Tracer

  /** The cell capacity both drivers pass to the density grid. */
  const CellCapacity := 2000

  /** The parameters both drivers receive: the angle matrix with its width, the math
      library, `n_curves`, `n_steps`, `min_steps_allowed`, `step_length` and `d_sep`. */
  datatype Config = Config(field: FlowField, trig: Trig, nCurves: int, nSteps: int,
                           minStepsAllowed: int, stepLength: real, dSep: real)
  {
    /** What the drivers rely on without checking it: a matrix that covers the field and
        a positive separation; and non-negative counts, as `reserve` throws on the
        negative ones. */
    ghost predicate Valid()
    {
      field.Valid() && dSep > 0.0 && nSteps >= 0 && nCurves >= 0
    }

    /** The most points a traced curve can have. */
    function MaxPoints(): int
    {
      if nSteps > 1 then nSteps else 1
    }
  }

  /** The square density grid both drivers build over the field. */
  ghost function InitialGrid(cfg: Config): (g: GridState)
    requires cfg.Valid()
    ensures g.Valid() && g.width == g.height && g.dSep == cfg.dSep
  {
    EmptyGrid(cfg.field.width, cfg.field.width, cfg.dSep, CellCapacity)
  }

  /** The grid after committing the points of `cs`, curve after curve, to `g`. */
  ghost function CommitAll(g: GridState, cs: seq<Streamline>): (h: GridState)
    requires g.Valid()
    ensures h.Valid() && h.width == g.width && h.height == g.height && h.dSep == g.dSep
    decreases |cs|
  {
    if cs == [] then g else CommitAll(g, cs[..|cs| - 1]).WithPoints(cs[|cs| - 1].points)
  }

  /** The driver state between two decisions: the list of accepted curves and the
      grid. */
  datatype RunState = RunState(curves: seq<Streamline>, grid: GridState)

  /** The driver's reaction to one candidate seed: a seed the grid rejects is skipped; a
      curve traced from an admitted seed with fewer than `min_steps_allowed` points is
      dropped; any other is appended, with the next id, and committed to the grid. */
  ghost function Offer(s: RunState, seed: Point, cfg: Config): RunState
    requires cfg.Valid() && s.grid.Valid()
  {
    if !s.grid.Admits(seed.x, seed.y) then s
    else
      var c := Trace(cfg.field, s.grid, cfg.trig, |s.curves|, seed, cfg.nSteps, cfg.stepLength);
      if |c.points| < cfg.minStepsAllowed then s
      else RunState(s.curves + [c], s.grid.WithPoints(c.points))
  }

  /** The seeds offered one after the other, in order. */
  ghost function OfferAll(s: RunState, seeds: seq<Point>, cfg: Config): (t: RunState)
    requires cfg.Valid() && s.grid.Valid()
    ensures t.grid.Valid() && t.grid.width == s.grid.width && t.grid.height == s.grid.height
    decreases |seeds|
  {
    if seeds == [] then s else OfferAll(Offer(s, seeds[0], cfg), seeds[1..], cfg)
  }

  /** The outer loop of the frontier driver from `curve_id`: while `curve_id < n_curves`
      and fewer than `n_curves` curves exist, offer the seed points of curve `curve_id`
      and move on to the next curve; stop when no curve is left to expand. */
  ghost function Grow(s: RunState, curveId: nat, cfg: Config): (t: RunState)
    requires cfg.Valid() && s.grid.Valid()
    ensures t.grid.Valid() && t.grid.width == s.grid.width && t.grid.height == s.grid.height
    decreases cfg.nCurves - curveId
  {
    if curveId < cfg.nCurves && |s.curves| < cfg.nCurves then
      if curveId >= |s.curves| then s
      else Grow(OfferAll(s, SeedPoints(s.curves[curveId].points, cfg.dSep, cfg.trig), cfg), curveId + 1, cfg)
    else s
  }

  /** `even_spaced_curves_impl` without its output conversion: curve 0 is traced from the
      given start on the empty grid and kept unconditionally; the frontier grows from
      there. */
  ghost function EvenSpacedRun(start: Point, cfg: Config): RunState
    requires cfg.Valid()
  {
    var g := InitialGrid(cfg);
    var first := Trace(cfg.field, g, cfg.trig, 0, start, cfg.nSteps, cfg.stepLength);
    Grow(RunState([first], g.WithPoints(first.points)), 0, cfg)
  }

  /** `non_overlapping_curves_impl` without its output conversion: every seed of the list
      is offered, in order, starting from no curves and the empty grid. */
  ghost function NonOverlappingRun(seeds: seq<Point>, cfg: Config): RunState
    requires cfg.Valid()
  {
    OfferAll(RunState([], InitialGrid(cfg)), seeds, cfg)
  }

  /** Curve `k` of `cs` is the curve `draw_curve` traces from its own first point, with id
      `k`, against the grid holding exactly the curves before it. */
  ghost predicate TracedAt(cs: seq<Streamline>, k: nat, cfg: Config)
    requires cfg.Valid() && k < |cs|
  {
    |cs[k].points| > 0 &&
    cs[k] == Trace(cfg.field, CommitAll(InitialGrid(cfg), cs[..k]), cfg.trig, k, cs[k].points[0],
                   cfg.nSteps, cfg.stepLength)
  }

  /** Curve `k` of `cs` passed both tests of the driver: its seed was admitted by the grid
      holding the curves before it, and it has at least `min_steps_allowed` points. */
  ghost predicate AcceptedAt(cs: seq<Streamline>, k: nat, cfg: Config)
    requires cfg.Valid() && k < |cs| && |cs[k].points| > 0
  {
    CommitAll(InitialGrid(cfg), cs[..k]).Admits(cs[k].points[0].x, cs[k].points[0].y) &&
    |cs[k].points| >= cfg.minStepsAllowed
  }

  /** What every driver state satisfies: the grid holds exactly the accepted curves,
      committed in list order; every curve was traced against the grid of the curves
      before it; and every curve from index `from` on passed both acceptance tests. */
  ghost predicate Consistent(s: RunState, cfg: Config, from: nat)
    requires cfg.Valid()
  {
    s.grid == CommitAll(InitialGrid(cfg), s.curves) &&
    (forall k :: 0 <= k < |s.curves| ==> TracedAt(s.curves, k, cfg)) &&
    (forall k :: from <= k < |s.curves| ==> TracedAt(s.curves, k, cfg) && AcceptedAt(s.curves, k, cfg))
  }

  /** The outcome of one offer: the state is either unchanged (the seed was rejected or
      the curve too short) or the curve traced from the seed, with the next id, is
      appended and committed; it is appended exactly when the grid admits the seed and
      the curve reaches `min_steps_allowed` points. */
  lemma OfferOutcome(s: RunState, seed: Point, cfg: Config)
    requires cfg.Valid() && s.grid.Valid()
    ensures var t := Offer(s, seed, cfg);
            var c := Trace(cfg.field, s.grid, cfg.trig, |s.curves|, seed, cfg.nSteps, cfg.stepLength);
            (t == s || t == RunState(s.curves + [c], s.grid.WithPoints(c.points))) &&
            (|t.curves| == |s.curves| + 1 <==> s.grid.Admits(seed.x, seed.y) && |c.points| >= cfg.minStepsAllowed)
  {
  }

  /** Committing one more curve extends the fold by one step. */
  lemma CommitAllSnoc(g: GridState, cs: seq<Streamline>, c: Streamline)
    requires g.Valid()
    ensures CommitAll(g, cs + [c]) == CommitAll(g, cs).WithPoints(c.points)
  {
    assert (cs + [c])[..|cs|] == cs;
  }

  /** Appending a curve changes nothing about the curves before it: each was traced,
      and accepted, against the same earlier grid as before. */
  lemma SnocKeepsEarlier(cs: seq<Streamline>, c: Streamline, k: nat, cfg: Config)
    requires cfg.Valid() && k < |cs|
    ensures TracedAt(cs + [c], k, cfg) == TracedAt(cs, k, cfg)
    ensures |cs[k].points| > 0 ==> AcceptedAt(cs + [c], k, cfg) == AcceptedAt(cs, k, cfg)
  {
    assert (cs + [c])[..k] == cs[..k];
  }

  /** The curve an offer appends is traced, and accepted, against the grid of the curves
      before it. */
  lemma SnocTraced(s: RunState, seed: Point, cfg: Config)
    requires cfg.Valid() && s.grid.Valid() && s.grid == CommitAll(InitialGrid(cfg), s.curves)
    ensures var c := Trace(cfg.field, s.grid, cfg.trig, |s.curves|, seed, cfg.nSteps, cfg.stepLength);
            TracedAt(s.curves + [c], |s.curves|, cfg) &&
            (s.grid.Admits(seed.x, seed.y) && |c.points| >= cfg.minStepsAllowed ==>
               AcceptedAt(s.curves + [c], |s.curves|, cfg))
  {
    var c := Trace(cfg.field, s.grid, cfg.trig, |s.curves|, seed, cfg.nSteps, cfg.stepLength);
    TraceShape(cfg.field, s.grid, cfg.trig, |s.curves|, seed, cfg.nSteps, cfg.stepLength);
    assert (s.curves + [c])[..|s.curves|] == s.curves;
  }

  /** One offer keeps a driver state consistent. */
  lemma OfferKeepsConsistent(s: RunState, seed: Point, cfg: Config, from: nat)
    requires cfg.Valid() && from <= |s.curves| && Consistent(s, cfg, from)
    ensures Consistent(Offer(s, seed, cfg), cfg, from)
  {
    var t := Offer(s, seed, cfg);
    OfferOutcome(s, seed, cfg);
    if t != s {
      var c := Trace(cfg.field, s.grid, cfg.trig, |s.curves|, seed, cfg.nSteps, cfg.stepLength);
      SnocTraced(s, seed, cfg);
      CommitAllSnoc(InitialGrid(cfg), s.curves, c);
      forall k | 0 <= k < |s.curves|
        ensures TracedAt(t.curves, k, cfg) && (from <= k ==> AcceptedAt(t.curves, k, cfg))
      {
        SnocKeepsEarlier(s.curves, c, k, cfg);
      }
    }
  }

  /** Offering a list of seeds keeps a driver state consistent, and the curves already
      accepted stay where they are. */
  lemma {:induction false} OfferAllKeepsConsistent(s: RunState, seeds: seq<Point>, cfg: Config, from: nat)
    requires cfg.Valid() && from <= |s.curves| && Consistent(s, cfg, from)
    ensures var t := OfferAll(s, seeds, cfg);
            Consistent(t, cfg, from) && s.curves <= t.curves && |t.curves| <= |s.curves| + |seeds|
    decreases |seeds|
  {
    if seeds != [] {
      var s1 := Offer(s, seeds[0], cfg);
      OfferKeepsConsistent(s, seeds[0], cfg, from);
      OfferOutcome(s, seeds[0], cfg);
      OfferAllKeepsConsistent(s1, seeds[1..], cfg, from);
    }
  }

  /** Every curve a list of offers appends starts at one of the offered seeds. */
  lemma {:induction false} OfferAllSeedsFromList(s: RunState, seeds: seq<Point>, cfg: Config)
    requires cfg.Valid() && s.grid.Valid()
    ensures var t := OfferAll(s, seeds, cfg);
            s.curves <= t.curves &&
            forall k :: |s.curves| <= k < |t.curves| ==> |t.curves[k].points| > 0 && t.curves[k].points[0] in seeds
    decreases |seeds|
  {
    if seeds != [] {
      var s1 := Offer(s, seeds[0], cfg);
      var c := Trace(cfg.field, s.grid, cfg.trig, |s.curves|, seeds[0], cfg.nSteps, cfg.stepLength);
      OfferOutcome(s, seeds[0], cfg);
      TraceShape(cfg.field, s.grid, cfg.trig, |s.curves|, seeds[0], cfg.nSteps, cfg.stepLength);
      OfferAllSeedsFromList(s1, seeds[1..], cfg);
      var t := OfferAll(s1, seeds[1..], cfg);
      forall k | |s.curves| <= k < |t.curves|
        ensures |t.curves[k].points| > 0 && t.curves[k].points[0] in seeds
      {
        if k < |s1.curves| {
          assert t.curves[k] == s1.curves[k] == c;
        } else {
          assert t.curves[k].points[0] in seeds[1..];
        }
      }
    }
  }

  /** The count `n_curves` plays no part in the pre-seeded driver beyond reserving
      storage: the run is the same whatever its value. */
  lemma {:induction false} OfferAllIgnoresCurveCount(s: RunState, seeds: seq<Point>, cfg: Config, n: int)
    requires cfg.Valid() && s.grid.Valid() && n >= 0
    ensures OfferAll(s, seeds, cfg) == OfferAll(s, seeds, cfg.(nCurves := n))
    decreases |seeds|
  {
    if seeds != [] {
      assert Offer(s, seeds[0], cfg) == Offer(s, seeds[0], cfg.(nCurves := n));
      OfferAllIgnoresCurveCount(Offer(s, seeds[0], cfg), seeds[1..], cfg, n);
    }
  }

  /** Curve `k` of a consistent state carries the id `k`, as ids are handed out
      consecutively from 0, and has between 1 and max(1, n_steps) points. */
  lemma ConsistentCurveShape(s: RunState, cfg: Config, from: nat, k: nat)
    requires cfg.Valid() && Consistent(s, cfg, from) && k < |s.curves|
    ensures s.curves[k].id == k && 1 <= |s.curves[k].points| <= cfg.MaxPoints()
  {
    assert TracedAt(s.curves, k, cfg);
    var g := CommitAll(InitialGrid(cfg), s.curves[..k]);
    TraceShape(cfg.field, g, cfg.trig, k, s.curves[k].points[0], cfg.nSteps, cfg.stepLength);
  }

  /** The frontier loop keeps the state consistent and only appends; an outer iteration
      starts only while fewer than `n_curves` curves exist, but inside it every seed
      point is offered, so the count can end above `n_curves`, by at most the seed
      points of one curve: 2 (max(1, n_steps) - 1). */
  lemma {:induction false} GrowKeepsConsistent(s: RunState, curveId: nat, cfg: Config, from: nat)
    requires cfg.Valid() && from <= |s.curves| && Consistent(s, cfg, from)
    ensures var t := Grow(s, curveId, cfg);
            Consistent(t, cfg, from) && s.curves <= t.curves &&
            |t.curves| <= if |s.curves| > cfg.nCurves - 1 + 2 * (cfg.MaxPoints() - 1) then |s.curves|
                          else cfg.nCurves - 1 + 2 * (cfg.MaxPoints() - 1)
    decreases cfg.nCurves - curveId
  {
    if curveId < cfg.nCurves && |s.curves| < cfg.nCurves && curveId < |s.curves| {
      var ps := s.curves[curveId].points;
      ConsistentCurveShape(s, cfg, from, curveId);
      SeedPointsLayout(ps, cfg.dSep, cfg.trig);
      var s1 := OfferAll(s, SeedPoints(ps, cfg.dSep, cfg.trig), cfg);
      OfferAllKeepsConsistent(s, SeedPoints(ps, cfg.dSep, cfg.trig), cfg, from);
      GrowKeepsConsistent(s1, curveId + 1, cfg, from);
    }
  }

  /** The frontier driver: curve 0 is the curve traced from the start on the empty grid,
      kept even when it is shorter than `min_steps_allowed`; every later curve passed
      both acceptance tests; the grid holds exactly the curves, committed in order; the
      run has between 1 and max(1, n_curves - 1 + 2 (max(1, n_steps) - 1)) curves. */
  lemma EvenSpacedRunShape(start: Point, cfg: Config)
    requires cfg.Valid()
    ensures var r := EvenSpacedRun(start, cfg);
            Consistent(r, cfg, 1) && |r.curves| >= 1 &&
            r.curves[0] == Trace(cfg.field, InitialGrid(cfg), cfg.trig, 0, start, cfg.nSteps, cfg.stepLength) &&
            |r.curves| <= if cfg.nCurves - 1 + 2 * (cfg.MaxPoints() - 1) > 1
                          then cfg.nCurves - 1 + 2 * (cfg.MaxPoints() - 1) else 1
  {
    var g := InitialGrid(cfg);
    var first := Trace(cfg.field, g, cfg.trig, 0, start, cfg.nSteps, cfg.stepLength);
    var s0 := RunState([first], g.WithPoints(first.points));
    TraceShape(cfg.field, g, cfg.trig, 0, start, cfg.nSteps, cfg.stepLength);
    CommitAllSnoc(g, [], first);
    assert [first][..0] == [];
    assert TracedAt(s0.curves, 0, cfg);
    GrowKeepsConsistent(s0, 0, cfg, 1);
  }

  /** The pre-seeded driver: every curve passed both acceptance tests against the grid
      of the curves before it, starts at one of the seeds, and the grid holds exactly
      the curves; there are at most as many curves as seeds, and `n_curves` changes
      nothing. */
  lemma NonOverlappingRunShape(seeds: seq<Point>, cfg: Config, n: int)
    requires cfg.Valid() && n >= 0
    ensures var r := NonOverlappingRun(seeds, cfg);
            Consistent(r, cfg, 0) && |r.curves| <= |seeds| &&
            (forall k :: 0 <= k < |r.curves| ==> |r.curves[k].points| > 0 && r.curves[k].points[0] in seeds) &&
            r == NonOverlappingRun(seeds, cfg.(nCurves := n))
  {
    var s0 := RunState([], InitialGrid(cfg));
    OfferAllKeepsConsistent(s0, seeds, cfg, 0);
    OfferAllSeedsFromList(s0, seeds, cfg);
    OfferAllIgnoresCurveCount(s0, seeds, cfg, n);
  }

  /** The driver's vector of curves: one object per accepted curve, each well formed and
      reading as the corresponding curve of the run. */
  ghost predicate Holds(cs: seq<Curve>, vs: seq<Streamline>)
    reads set c | c in cs
  {
    |cs| == |vs| && forall k :: 0 <= k < |cs| ==> cs[k].Valid() && cs[k].Value() == vs[k]
  }

  /** One accepted curve appended to the vector keeps it in step with the run. */
  lemma HoldsSnoc(cs: seq<Curve>, vs: seq<Streamline>, c: Curve)
    requires Holds(cs, vs) && c.Valid()
    ensures Holds(cs + [c], vs + [c.Value()])
  {
    assert forall k :: 0 <= k < |cs| ==> (cs + [c])[k] == cs[k];
  }

  /** The body both drivers run for one candidate seed: ask the grid, draw the curve
      from an admitted seed with the next id, drop it when it took fewer than
      `min_steps_allowed` steps, else append it and insert its points into the grid. */
  method OfferSeed(curves0: seq<Curve>, grid: DensityGrid, p: Point, cfg: Config,
                   ghost values0: seq<Streamline>)
    returns (curves: seq<Curve>, ghost values: seq<Streamline>)
    requires cfg.Valid() && grid.Valid() && grid.width == grid.height && Holds(curves0, values0)
    modifies grid.cells
    ensures grid.Valid() && Holds(curves, values)
    ensures RunState(values, grid.State()) == Offer(RunState(values0, old(grid.State())), p, cfg)
  {
    curves, values := curves0, values0;
    var valid := grid.IsValidNextStep(p.x, p.y);
    if valid {
      var curve := DrawCurve(|curves|, p.x, p.y, cfg.nSteps, cfg.stepLength, cfg.dSep, cfg.field, grid, cfg.trig);
      if curve.stepsTaken < cfg.minStepsAllowed {
        return;
      }
      HoldsSnoc(curves, values, curve);
      curves, values := curves + [curve], values + [curve.Value()];
      grid.InsertCurveCoords(curve);
    }
  }

  /** The seeds of a list offered one after the other, in order. */
  method OfferSeeds(curves0: seq<Curve>, grid: DensityGrid, seeds: seq<Point>, cfg: Config,
                    ghost values0: seq<Streamline>)
    returns (curves: seq<Curve>, ghost values: seq<Streamline>)
    requires cfg.Valid() && grid.Valid() && grid.width == grid.height && Holds(curves0, values0)
    modifies grid.cells
    ensures grid.Valid() && Holds(curves, values)
    ensures RunState(values, grid.State()) == OfferAll(RunState(values0, old(grid.State())), seeds, cfg)
  {
    curves, values := curves0, values0;
    for j := 0 to |seeds|
      invariant grid.Valid() && Holds(curves, values)
      invariant OfferAll(RunState(values, grid.State()), seeds[j..], cfg)
                == OfferAll(RunState(values0, old(grid.State())), seeds, cfg)
    {
      assert seeds[j..] == [seeds[j]] + seeds[j + 1..];
      curves, values := OfferSeed(curves, grid, seeds[j], cfg, values);
    }
  }

  /** `even_spaced_curves_impl` without its output conversion: the curves it returns are
      the curves of the frontier run from the start point. */
  method EvenSpacedCurves(xStart: real, yStart: real, cfg: Config) returns (curves: seq<Curve>)
    requires cfg.Valid()
    ensures Holds(curves, EvenSpacedRun(Point(xStart, yStart), cfg).curves)
  {
    var grid := new DensityGrid(cfg.field.width, cfg.field.width, cfg.dSep, CellCapacity);
    var curveArrayIndex, curveId := 0, 0;
    var curve := DrawCurve(curveId, xStart, yStart, cfg.nSteps, cfg.stepLength, cfg.dSep, cfg.field, grid, cfg.trig);
    curves := [curve];
    grid.InsertCurveCoords(curve);
    curveArrayIndex := curveArrayIndex + 1;
    ghost var values := [curve.Value()];
    ghost var target := EvenSpacedRun(Point(xStart, yStart), cfg);
    while curveId < cfg.nCurves && curveArrayIndex < cfg.nCurves
      invariant 0 <= curveId && curveArrayIndex == |curves|
      invariant grid.Valid() && grid.width == grid.height && Holds(curves, values)
      invariant Grow(RunState(values, grid.State()), curveId, cfg) == target
      decreases cfg.nCurves - curveId
    {
      if curveId >= |curves| {
        // no curve left to expand
        break;
      }
      var queue := CollectSeedpoints(curves[curveId], cfg.dSep, cfg.trig);
      curves, values := OfferSeeds(curves, grid, queue.points, cfg, values);
      curveArrayIndex := |curves|;
      curveId := curveId + 1;
    }
  }

  /** `non_overlapping_curves_impl` without its output conversion: the curves it returns
      are the curves of the run over the starting points, in order. */
  method NonOverlappingCurves(startingPoints: seq<Point>, cfg: Config) returns (curves: seq<Curve>)
    requires cfg.Valid()
    ensures Holds(curves, NonOverlappingRun(startingPoints, cfg).curves)
  {
    var grid := new DensityGrid(cfg.field.width, cfg.field.width, cfg.dSep, CellCapacity);
    ghost var values;
    curves, values := OfferSeeds([], grid, startingPoints, cfg, []);
  }

  /** Every point of every curve of a consistent state was admitted by the grid holding
      the curves before it: a later point by the test in `draw_curve`, the seed by the
      driver's own test (from index `from` on). */
  lemma ConsistentPointsAdmitted(s: RunState, cfg: Config, from: nat, k: nat, i: nat)
    requires cfg.Valid() && Consistent(s, cfg, from) && k < |s.curves| && i < |s.curves[k].points|
    requires from <= k || 0 < i
    ensures CommitAll(InitialGrid(cfg), s.curves[..k]).Admits(s.curves[k].points[i].x, s.curves[k].points[i].y)
  {
    assert TracedAt(s.curves, k, cfg);
    TraceShape(cfg.field, CommitAll(InitialGrid(cfg), s.curves[..k]), cfg.trig, k, s.curves[k].points[0],
               cfg.nSteps, cfg.stepLength);
    if i == 0 {
      assert AcceptedAt(s.curves, k, cfg);
    }
  }

  /** The separation guarantee: every checked point of curve `k` lies more than
      `d_test = 0.99 d_sep` from every point the earlier curves left stored in the cells of
      its clamped block. */
  lemma ConsistentPointsSeparated(s: RunState, cfg: Config, from: nat, k: nat, i: nat, c: int, r: int, m: nat)
    requires cfg.Valid() && Consistent(s, cfg, from) && k < |s.curves| && i < |s.curves[k].points|
    requires from <= k || 0 < i
    requires var g := CommitAll(InitialGrid(cfg), s.curves[..k]);
             var p := s.curves[k].points[i];
             Neighbourhood(DensityCol(p.x, g.dSep), DensityRow(p.y, g.dSep), g.width, g.height).Contains(c, r) &&
             0 <= CellIndex(c, r, g.width) < |g.cells| && m < g.cells[CellIndex(c, r, g.width)].spaceUsed
    ensures var g := CommitAll(InitialGrid(cfg), s.curves[..k]);
            var cell := g.cells[CellIndex(c, r, g.width)];
            SquaredDistance(s.curves[k].points[i], Point(cell.x[m], cell.y[m])) > TestDistance(cfg.dSep) * TestDistance(cfg.dSep)
  {
    var g := CommitAll(InitialGrid(cfg), s.curves[..k]);
    var p := s.curves[k].points[i];
    ConsistentPointsAdmitted(s, cfg, from, k, i);
    AdmittedIsSeparated(g, p.x, p.y, c, r, m);
  }

  /** Two seeds one unit apart in the same grid cell, `d_sep = 5`, one-step curves: the
      first seed gives curve 0, the grid then rejects the second, and the run has one
      curve. */
  lemma ScenarioCloseSeeds(field: FlowField, trig: Trig)
    requires field.Valid() && field.width == 20
    ensures var cfg := Config(field, trig, 2, 1, 1, 1.0, 5.0);
            NonOverlappingRun([Point(10.5, 10.5), Point(11.5, 10.5)], cfg).curves ==
            [Streamline(0, [Point(10.5, 10.5)], [0])]
  {
    var cfg := Config(field, trig, 2, 1, 1, 1.0, 5.0);
    var a, b := Point(10.5, 10.5), Point(11.5, 10.5);
    var g := InitialGrid(cfg);
    assert g.width == 4 && g.height == 4;
    assert DensityCol(10.5, 5.0) == 2 && DensityRow(10.5, 5.0) == 2 && DensityCol(11.5, 5.0) == 2;
    EmptyGridAdmits(20, 20, 5.0, CellCapacity, a.x, a.y);
    var c := Trace(field, g, trig, 0, a, 1, 1.0);
    assert c == Streamline(0, [a], [0]);
    var s1 := RunState([c], g.WithPoints([a]));
    assert Offer(RunState([], g), a, cfg) == s1;
    var g1 := g.WithCoord(a.x, a.y);
    assert g.WithPoints([a]) == g1.WithPoints([]) == g1;
    assert g.cells[10] == DensityCell([], [], CellCapacity, 0);
    assert g1.cells[10].x == [10.5] && g1.cells[10].y == [10.5] && g1.cells[10].spaceUsed == 1;
    assert SquaredDistance(b, Point(g1.cells[10].x[0], g1.cells[10].y[0])) == 1.0 < TestDistance(5.0) * TestDistance(5.0);
    assert g1.cells[10].Crowds(b, TestDistance(5.0));
    assert Neighbourhood(2, 2, 4, 4).Contains(2, 2) && CellIndex(2, 2, 4) == 10;
    assert !g1.Admits(b.x, b.y);
    assert Offer(s1, b, cfg) == s1;
  }
}
