/** Bidirectional integration of one streamline from a seed (`lefer::draw_curve`). */
module Tracer {
  import opened Geometry
  import opened FlowFields
  import opened Curves
  import opened Density

  /** The two loops of `draw_curve`: the first subtracts the step vector and tags its
      points 0, the second adds it and tags its points 1. */
  datatype Pass = Backward | Forward

  /** One step from `p`: `step_length` along the angle of `p`'s cell, subtracted on the
      backward pass and added on the forward pass. */
  function Advance(field: FlowField, trig: Trig, stepLength: real, pass: Pass, p: Point): Point
    requires field.Valid() && !field.OffBoundaries(p.x, p.y)
  {
    var angle := field.GetAngle(p.x, p.y);
    var xStep := stepLength * trig.cos(angle);
    var yStep := stepLength * trig.sin(angle);
    if pass == Backward then Point(p.x - xStep, p.y - yStep) else Point(p.x + xStep, p.y + yStep)
  }

  /** A pass standing at `p` stops: `p` is off the field, or the step from `p` lands
      where the grid rejects it. */
  ghost predicate Stops(field: FlowField, grid: GridState, trig: Trig, stepLength: real, pass: Pass, p: Point)
    requires field.Valid() && grid.Valid()
  {
    field.OffBoundaries(p.x, p.y) || !grid.Admits(Advance(field, trig, stepLength, pass, p).x,
                                                   Advance(field, trig, stepLength, pass, p).y)
  }

  /** The points one pass appends when it starts at `p` with `budget` iterations left:
      at most `budget` of them, each admitted by the grid. */
  ghost function Walk(field: FlowField, grid: GridState, trig: Trig, stepLength: real, pass: Pass,
                      p: Point, budget: nat): (ps: seq<Point>)
    requires field.Valid() && grid.Valid()
    ensures |ps| <= budget
    decreases budget
  {
    if budget == 0 || field.OffBoundaries(p.x, p.y) then []
    else
      var q := Advance(field, trig, stepLength, pass, p);
      if !grid.Admits(q.x, q.y) then [] else [q] + Walk(field, grid, trig, stepLength, pass, q, budget - 1)
  }

  /** The point a pass stands on before appending `ps[i]`. */
  function Before(p: Point, ps: seq<Point>, i: nat): Point
    requires i <= |ps|
  {
    if i == 0 then p else ps[i - 1]
  }

  /** Each point of a pass is one step, along the field, from the point before it (the
      first from the start), taken from a point inside the field, and the grid admits
      it. */
  lemma {:induction false} WalkFollowsField(field: FlowField, grid: GridState, trig: Trig, stepLength: real,
                                            pass: Pass, p: Point, budget: nat, i: nat)
    requires field.Valid() && grid.Valid()
    requires i < |Walk(field, grid, trig, stepLength, pass, p, budget)|
    ensures var ps := Walk(field, grid, trig, stepLength, pass, p, budget);
            !field.OffBoundaries(Before(p, ps, i).x, Before(p, ps, i).y) &&
            ps[i] == Advance(field, trig, stepLength, pass, Before(p, ps, i)) &&
            grid.Admits(ps[i].x, ps[i].y)
    decreases i
  {
    var ps := Walk(field, grid, trig, stepLength, pass, p, budget);
    var q := Advance(field, trig, stepLength, pass, p);
    var rest := Walk(field, grid, trig, stepLength, pass, q, budget - 1);
    assert ps == [q] + rest;
    if i > 0 {
      WalkFollowsField(field, grid, trig, stepLength, pass, q, budget - 1, i - 1);
      assert Before(p, ps, i) == Before(q, rest, i - 1);
    }
  }

  /** A pass that appends fewer points than its budget allows stopped because it had to:
      its last point (or its start) is off the field, or the next step is rejected. */
  lemma {:induction false} WalkStopsOnlyWhenForced(field: FlowField, grid: GridState, trig: Trig, stepLength: real,
                                                   pass: Pass, p: Point, budget: nat)
    requires field.Valid() && grid.Valid()
    ensures var ps := Walk(field, grid, trig, stepLength, pass, p, budget);
            |ps| < budget ==> Stops(field, grid, trig, stepLength, pass, Before(p, ps, |ps|))
    decreases budget
  {
    var ps := Walk(field, grid, trig, stepLength, pass, p, budget);
    if ps != [] {
      var q := Advance(field, trig, stepLength, pass, p);
      var rest := Walk(field, grid, trig, stepLength, pass, q, budget - 1);
      WalkStopsOnlyWhenForced(field, grid, trig, stepLength, pass, q, budget - 1);
      assert ps == [q] + rest;
      assert Before(p, ps, |ps|) == Before(q, rest, |rest|);
    }
  }

  /** Iterations left to the backward loop `while (i < n_steps / 2)` started at i = 1. */
  function BackwardBudget(nSteps: int): nat
  {
    if nSteps / 2 - 1 > 0 then nSteps / 2 - 1 else 0
  }

  /** The curve `draw_curve` returns: the seed (tag 0), the backward pass (tag 0) with at
      most n/2 - 1 steps, then the forward pass (tag 1) with the iterations left up to
      `n_steps`. The grid is read and never changed. */
  ghost function Trace(field: FlowField, grid: GridState, trig: Trig, curveId: int, seed: Point,
                       nSteps: int, stepLength: real): Streamline
    requires field.Valid() && grid.Valid() && nSteps >= 0
  {
    var back := Walk(field, grid, trig, stepLength, Backward, seed, BackwardBudget(nSteps));
    var forwardBudget := nSteps - 1 - |back|;
    var fwd := Walk(field, grid, trig, stepLength, Forward, seed, if forwardBudget > 0 then forwardBudget else 0);
    Streamline(curveId, [seed] + back + fwd, Repeat(0, 1 + |back|) + Repeat(1, |fwd|))
  }

  /** The shape of a traced curve: at least the seed and at most max(1, n_steps) points,
      the seed first with tag 0; the tags are 0s then 1s, with at most max(1, n_steps / 2)
      zeros; every point but the seed was admitted by the grid. */
  lemma TraceShape(field: FlowField, grid: GridState, trig: Trig, curveId: int, seed: Point,
                   nSteps: int, stepLength: real)
    requires field.Valid() && grid.Valid() && nSteps >= 0
    ensures var c := Trace(field, grid, trig, curveId, seed, nSteps, stepLength);
            c.id == curveId && |c.tags| == |c.points| &&
            1 <= |c.points| <= (if nSteps > 1 then nSteps else 1) &&
            c.points[0] == seed && c.tags[0] == 0 &&
            (forall i :: 0 < i < |c.points| ==> grid.Admits(c.points[i].x, c.points[i].y)) &&
            (forall i, j :: 0 <= i <= j < |c.tags| ==> 0 <= c.tags[i] <= c.tags[j] <= 1) &&
            (forall i :: 0 <= i < |c.tags| && c.tags[i] == 0 ==> i < (if nSteps / 2 > 1 then nSteps / 2 else 1))
  {
    var c := Trace(field, grid, trig, curveId, seed, nSteps, stepLength);
    var back := Walk(field, grid, trig, stepLength, Backward, seed, BackwardBudget(nSteps));
    var forwardBudget := nSteps - 1 - |back|;
    var fwd := Walk(field, grid, trig, stepLength, Forward, seed, if forwardBudget > 0 then forwardBudget else 0);
    assert c.points == [seed] + back + fwd;
    assert c.tags == Repeat(0, 1 + |back|) + Repeat(1, |fwd|);
    forall i | 0 < i < |c.points|
      ensures grid.Admits(c.points[i].x, c.points[i].y)
    {
      if i <= |back| {
        assert c.points[i] == back[i - 1];
        WalkFollowsField(field, grid, trig, stepLength, Backward, seed, BackwardBudget(nSteps), i - 1);
      } else {
        assert c.points[i] == fwd[i - 1 - |back|];
        WalkFollowsField(field, grid, trig, stepLength, Forward, seed,
                         if forwardBudget > 0 then forwardBudget else 0, i - 1 - |back|);
      }
    }
  }

  /** The direction tag `draw_curve` records for the points of a pass. */
  function Tag(pass: Pass): int
  {
    if pass == Backward then 0 else 1
  }

  /** The pass decides at each point as `draw_curve` does: standing on the point before
      `ps[k]` with budget left, it appends `ps[k]`, one step along the field, exactly when
      it is not forced to stop there. */
  lemma PassGoesOnUnlessStopped(field: FlowField, grid: GridState, trig: Trig, stepLength: real,
                                pass: Pass, start: Point, budget: nat, k: nat)
    requires field.Valid() && grid.Valid() && k < budget
    requires k <= |Walk(field, grid, trig, stepLength, pass, start, budget)|
    ensures var ps := Walk(field, grid, trig, stepLength, pass, start, budget);
            (k < |ps| <==> !Stops(field, grid, trig, stepLength, pass, Before(start, ps, k))) &&
            (k < |ps| ==> ps[k] == Advance(field, trig, stepLength, pass, Before(start, ps, k)))
  {
    var ps := Walk(field, grid, trig, stepLength, pass, start, budget);
    if k < |ps| {
      WalkFollowsField(field, grid, trig, stepLength, pass, start, budget, k);
    } else {
      WalkStopsOnlyWhenForced(field, grid, trig, stepLength, pass, start, budget);
    }
  }

  /** What the two loops of `draw_curve` build is `Trace`: the seed with tag 0, then
      the backward pass from the seed appended with tag 0, then the forward pass from the
      seed, with the iterations left, appended with tag 1. */
  lemma TraceAssembled(field: FlowField, grid: GridState, trig: Trig, curveId: int, seed: Point,
                       nSteps: int, stepLength: real, c0: Streamline, c1: Streamline, c2: Streamline)
    requires field.Valid() && grid.Valid() && nSteps >= 0
    requires c0 == Streamline(curveId, [seed], [0])
    requires var back := Walk(field, grid, trig, stepLength, Backward, seed,
                              if nSteps / 2 - 1 > 0 then nSteps / 2 - 1 else 0);
             c1 == Streamline(curveId, c0.points + back, c0.tags + Repeat(0, |back|))
    requires var rest := nSteps - |c1.points|;
             var fwd := Walk(field, grid, trig, stepLength, Forward, seed, if rest > 0 then rest else 0);
             c2 == Streamline(curveId, c1.points + fwd, c1.tags + Repeat(1, |fwd|))
    ensures c2 == Trace(field, grid, trig, curveId, seed, nSteps, stepLength)
  {
    var back := Walk(field, grid, trig, stepLength, Backward, seed, BackwardBudget(nSteps));
    RepeatCons(0, |back|);
  }

  /** `Repeat` grows by one element at the front. */
  lemma RepeatCons(v: int, n: nat)
    ensures [v] + Repeat(v, n) == Repeat(v, n + 1)
  {
  }

  /** `Repeat` grows by one element at the end. */
  lemma RepeatSnoc(v: int, n: nat)
    ensures Repeat(v, n) + [v] == Repeat(v, n + 1)
  {
  }

  /** The body of the loops of `draw_curve`: from `p`, unless `p` is off the field, take
      one step and append it to the curve with the pass's tag when the grid admits it;
      `stepped` says whether the point was appended, and `q` is that point. */
  method TakeStep(curve: Curve, grid: DensityGrid, field: FlowField, trig: Trig, stepLength: real,
                  pass: Pass, p: Point) returns (q: Point, stepped: bool)
    requires curve.Valid() && field.Valid() && grid.Valid() && grid.width == grid.height
    modifies curve
    ensures curve.Valid() && curve.curveId == old(curve.curveId)
    ensures stepped ==> !field.OffBoundaries(p.x, p.y) && q == Advance(field, trig, stepLength, pass, p) &&
                        grid.State().Admits(q.x, q.y)
    ensures !stepped ==> Stops(field, grid.State(), trig, stepLength, pass, p)
    ensures stepped ==> curve.stepsTaken == old(curve.stepsTaken) + 1 &&
                        curve.points == old(curve.points) + [q] &&
                        curve.direction == old(curve.direction) + [Tag(pass)]
    ensures !stepped ==> curve.stepsTaken == old(curve.stepsTaken) &&
                         curve.points == old(curve.points) &&
                         curve.direction == old(curve.direction)
  {
    if field.OffBoundaries(p.x, p.y) {
      return p, false;
    }
    q := Advance(field, trig, stepLength, pass, p);
    var valid := grid.IsValidNextStep(q.x, q.y);
    if !valid {
      return q, false;
    }
    curve.InsertStep(q.x, q.y, Tag(pass));
    stepped := true;
  }

  /** One of the two loops of `draw_curve`, run with its counter at `i0` (the curve's
      step count) up to `limit`: it appends to the curve exactly the points of the pass
      from `start`, tagged with the pass's tag, and returns the counter it stopped at. */
  method RunPass(curve: Curve, grid: DensityGrid, field: FlowField, trig: Trig, stepLength: real,
                 pass: Pass, start: Point, i0: int, limit: int) returns (i: int)
    requires curve.Valid() && curve.stepsTaken == i0
    requires field.Valid() && grid.Valid() && grid.width == grid.height
    modifies curve
    ensures curve.Valid() && curve.curveId == old(curve.curveId) && curve.stepsTaken == i
    ensures var ps := Walk(field, grid.State(), trig, stepLength, pass, start,
                           if limit - i0 > 0 then limit - i0 else 0);
            curve.points == old(curve.points) + ps &&
            curve.direction == old(curve.direction) + Repeat(Tag(pass), |ps|)
  {
    ghost var g := grid.State();
    ghost var budget: nat := if limit - i0 > 0 then limit - i0 else 0;
    ghost var ps := Walk(field, g, trig, stepLength, pass, start, budget);
    ghost var initial := curve.points;
    ghost var tags := curve.direction;
    ghost var k: nat := 0;
    var p := start;
    i := i0;
    while i < limit
      invariant curve.Valid() && curve.curveId == old(curve.curveId) && curve.stepsTaken == i
      invariant i == i0 + k && k <= |ps| && k <= budget && (i < limit <==> k < budget)
      invariant curve.points == initial + ps[..k]
      invariant curve.direction == tags + Repeat(Tag(pass), k)
      invariant p == Before(start, ps, k)
    {
      var q, stepped := TakeStep(curve, grid, field, trig, stepLength, pass, p);
      PassGoesOnUnlessStopped(field, g, trig, stepLength, pass, start, budget, k);
      if !stepped {
        break;
      }
      assert ps[..k + 1] == ps[..k] + [q];
      RepeatSnoc(Tag(pass), k);
      p := q;
      i, k := i + 1, k + 1;
    }
    assert ps[..k] == ps;
  }

  /** `lefer::draw_curve`. The grid is only queried (the method may change nothing but
      the curve it allocates); `d_sep` is passed by the source and not used. */
  method DrawCurve(curveId: int, xStart: real, yStart: real, nSteps: int, stepLength: real, dSep: real,
                   field: FlowField, grid: DensityGrid, trig: Trig) returns (curve: Curve)
    requires nSteps >= 0 && field.Valid() && grid.Valid() && grid.width == grid.height
    ensures fresh(curve) && curve.Valid()
    ensures curve.Value() == Trace(field, grid.State(), trig, curveId, Point(xStart, yStart), nSteps, stepLength)
  {
    var seed := Point(xStart, yStart);
    curve := new Curve(curveId, nSteps);
    curve.InsertStep(xStart, yStart, 0);
    ghost var g := grid.State();
    ghost var seedOnly := curve.Value();
    var i := 1;
    // backward pass: subtract the step, tag 0
    i := RunPass(curve, grid, field, trig, stepLength, Backward, seed, i, nSteps / 2);
    ghost var afterBackward := curve.Value();
    // forward pass: add the step, tag 1
    i := RunPass(curve, grid, field, trig, stepLength, Forward, seed, i, nSteps);
    TraceAssembled(field, g, trig, curveId, seed, nSteps, stepLength, seedOnly, afterBackward, curve.Value());
  }

  /** A uniform field of angle 0 on a 10 x 10 square, seed (5, 5), 4 steps of length 1
      and an empty grid with d_sep = 2: one backward step to (4, 5), then forward steps
      to (6, 5) and (7, 5), with tags 0, 0, 1, 1. */
  lemma ScenarioUniformField(trig: Trig)
    requires trig.cos(0.0) == 1.0 && trig.sin(0.0) == 0.0
    ensures var field := FlowField(seq(10, _ => seq(10, _ => 0.0)), 10);
            Trace(field, EmptyGrid(10, 10, 2.0, 2000), trig, 0, Point(5.0, 5.0), 4, 1.0) ==
            Streamline(0, [Point(5.0, 5.0), Point(4.0, 5.0), Point(6.0, 5.0), Point(7.0, 5.0)], [0, 0, 1, 1])
  {
    var field := FlowField(seq(10, _ => seq(10, _ => 0.0)), 10);
    var g := EmptyGrid(10, 10, 2.0, 2000);
    assert g.width == 5 && g.height == 5;
    var seed := Point(5.0, 5.0);
    assert field.GetAngle(5.0, 5.0) == 0.0;
    assert Advance(field, trig, 1.0, Backward, seed) == Point(4.0, 5.0);
    EmptyGridAdmits(10, 10, 2.0, 2000, 4.0, 5.0);
    assert DensityCol(4.0, 2.0) == 2 && DensityRow(5.0, 2.0) == 2;
    assert Walk(field, g, trig, 1.0, Backward, seed, 1) == [Point(4.0, 5.0)];
    assert Advance(field, trig, 1.0, Forward, seed) == Point(6.0, 5.0);
    assert field.GetAngle(6.0, 5.0) == 0.0;
    assert Advance(field, trig, 1.0, Forward, Point(6.0, 5.0)) == Point(7.0, 5.0);
    EmptyGridAdmits(10, 10, 2.0, 2000, 6.0, 5.0);
    EmptyGridAdmits(10, 10, 2.0, 2000, 7.0, 5.0);
    assert DensityCol(6.0, 2.0) == 3 && DensityCol(7.0, 2.0) == 3;
    assert Walk(field, g, trig, 1.0, Forward, Point(6.0, 5.0), 1) == [Point(7.0, 5.0)];
    assert Walk(field, g, trig, 1.0, Forward, seed, 2) == [Point(6.0, 5.0), Point(7.0, 5.0)];
    assert Repeat(0, 2) + Repeat(1, 2) == [0, 0, 1, 1];
  }
}
