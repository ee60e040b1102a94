/** Candidate start points derived from a curve (`lefer::SeedPointsQueue` and
    `collect_seedpoints`). */
module Seeds {
  import opened Geometry
  import opened Curves

  /** The candidate at distance `dSep` from `p`, a quarter turn counter-clockwise from
      the direction of the segment p -> q. */
  function LeftCandidate(p: Point, q: Point, dSep: real, trig: Trig): Point
  {
    var angle := trig.atan2(q.y - p.y, q.x - p.x);
    var angleLeft := angle + trig.pi / 2.0;
    Point(p.x + dSep * trig.cos(angleLeft), p.y + dSep * trig.sin(angleLeft))
  }

  /** The candidate a quarter turn clockwise. */
  function RightCandidate(p: Point, q: Point, dSep: real, trig: Trig): Point
  {
    var angle := trig.atan2(q.y - p.y, q.x - p.x);
    var angleRight := angle - trig.pi / 2.0;
    Point(p.x + dSep * trig.cos(angleRight), p.y + dSep * trig.sin(angleRight))
  }

  /** The candidates of the first `k` segments of `ps`, two per segment. */
  function Candidates(ps: seq<Point>, k: nat, dSep: real, trig: Trig): (qs: seq<Point>)
    requires k < |ps| || k == 0
    ensures |qs| == 2 * k
  {
    if k == 0 then []
    else Candidates(ps, k - 1, dSep, trig) +
         [LeftCandidate(ps[k - 1], ps[k], dSep, trig), RightCandidate(ps[k - 1], ps[k], dSep, trig)]
  }

  /** What `collect_seedpoints` returns for a curve with points `ps`. */
  function SeedPoints(ps: seq<Point>, dSep: real, trig: Trig): seq<Point>
  {
    if |ps| == 0 then [] else Candidates(ps, |ps| - 1, dSep, trig)
  }

  /** The candidates of one segment more are those of the previous segments followed
      by the new segment's left and right candidates. */
  lemma CandidatesStep(ps: seq<Point>, k: nat, dSep: real, trig: Trig)
    requires k + 1 < |ps|
    ensures Candidates(ps, k + 1, dSep, trig) ==
            Candidates(ps, k, dSep, trig) + [LeftCandidate(ps[k], ps[k + 1], dSep, trig)]
                                          + [RightCandidate(ps[k], ps[k + 1], dSep, trig)]
  {
  }

  lemma {:induction false} CandidatesAt(ps: seq<Point>, k: nat, dSep: real, trig: Trig, i: nat)
    requires k < |ps| && i < k
    ensures Candidates(ps, k, dSep, trig)[2 * i] == LeftCandidate(ps[i], ps[i + 1], dSep, trig)
    ensures Candidates(ps, k, dSep, trig)[2 * i + 1] == RightCandidate(ps[i], ps[i + 1], dSep, trig)
  {
    if i < k - 1 {
      CandidatesAt(ps, k - 1, dSep, trig, i);
    }
  }

  /** No candidate for an empty or one-point curve; otherwise exactly two per segment,
      the left one then the right one, segments in increasing order. */
  lemma SeedPointsLayout(ps: seq<Point>, dSep: real, trig: Trig)
    ensures |SeedPoints(ps, dSep, trig)| == if |ps| == 0 then 0 else 2 * (|ps| - 1)
    ensures forall i :: 0 <= i < |ps| - 1 ==>
              SeedPoints(ps, dSep, trig)[2 * i] == LeftCandidate(ps[i], ps[i + 1], dSep, trig) &&
              SeedPoints(ps, dSep, trig)[2 * i + 1] == RightCandidate(ps[i], ps[i + 1], dSep, trig)
  {
    forall i | 0 <= i < |ps| - 1
      ensures SeedPoints(ps, dSep, trig)[2 * i] == LeftCandidate(ps[i], ps[i + 1], dSep, trig)
      ensures SeedPoints(ps, dSep, trig)[2 * i + 1] == RightCandidate(ps[i], ps[i + 1], dSep, trig)
    {
      CandidatesAt(ps, |ps| - 1, dSep, trig, i);
    }
  }

  lemma ScaledUnitLength(d: real, c: real, s: real)
    requires c * c + s * s == 1.0
    ensures (d * c) * (d * c) + (d * s) * (d * s) == d * d
  {
    calc {
      (d * c) * (d * c) + (d * s) * (d * s);
      d * d * (c * c + s * s);
      d * d;
    }
  }

  /** When cos² + sin² = 1, both candidates of a segment lie exactly `dSep` from the
      segment's first point. */
  lemma CandidatesAtSeparation(p: Point, q: Point, dSep: real, trig: Trig)
    requires trig.Pythagorean()
    ensures SquaredDistance(p, LeftCandidate(p, q, dSep, trig)) == dSep * dSep
    ensures SquaredDistance(p, RightCandidate(p, q, dSep, trig)) == dSep * dSep
  {
    var angle := trig.atan2(q.y - p.y, q.x - p.x);
    var left, right := angle + trig.pi / 2.0, angle - trig.pi / 2.0;
    ScaledUnitLength(dSep, trig.cos(left), trig.sin(left));
    ScaledUnitLength(dSep, trig.cos(right), trig.sin(right));
  }

  class SeedPointsQueue {
    var points: seq<Point>
    var capacity: int
    var spaceUsed: int

    ghost predicate Valid()
      reads this
    {
      spaceUsed == |points|
    }

    /** `SeedPointsQueue(n_steps)`: empty, with a nominal capacity of `2 * n_steps`. */
    constructor (nSteps: int)
      ensures Valid() && points == [] && capacity == nSteps * 2
    {
      capacity := nSteps * 2;
      spaceUsed := 0;
      points := [];
    }

    /** `SeedPointsQueue::is_empty`. */
    function IsEmpty(): (empty: bool)
      reads this
      requires Valid()
      ensures empty <==> points == []
    {
      spaceUsed == 0
    }

    /** `SeedPointsQueue::insert_coord`: appends whatever the capacity. */
    method InsertCoord(x: real, y: real)
      requires Valid()
      modifies this
      ensures Valid() && points == old(points) + [Point(x, y)] && capacity == old(capacity)
    {
      points := points + [Point(x, y)];
      spaceUsed := spaceUsed + 1;
    }

    /** `SeedPointsQueue::insert_point`: appends whatever the capacity. */
    method InsertPoint(p: Point)
      requires Valid()
      modifies this
      ensures Valid() && points == old(points) + [p] && capacity == old(capacity)
    {
      points := points + [p];
      spaceUsed := spaceUsed + 1;
    }
  }

  /** `collect_seedpoints`: the queue holds the curve's seed points and nothing else. */
  method CollectSeedpoints(curve: Curve, dSep: real, trig: Trig) returns (queue: SeedPointsQueue)
    requires curve.Valid()
    ensures fresh(queue) && queue.Valid() && queue.capacity == 2 * curve.stepsTaken
    ensures queue.points == SeedPoints(curve.points, dSep, trig)
  {
    var stepsTaken, xs, ys := curve.stepsTaken, curve.x, curve.y;
    ghost var ps := curve.points;
    queue := new SeedPointsQueue(stepsTaken);
    if stepsTaken == 0 {
      return;
    }
    for i := 0 to stepsTaken - 1
      invariant queue.Valid() && queue.capacity == 2 * stepsTaken
      invariant queue.points == Candidates(ps, i, dSep, trig)
    {
      var p, q := Point(xs[i], ys[i]), Point(xs[i + 1], ys[i + 1]);
      assert p == ps[i] && q == ps[i + 1];
      CandidatesStep(ps, i, dSep, trig);
      queue.InsertPoint(LeftCandidate(p, q, dSep, trig));
      queue.InsertPoint(RightCandidate(p, q, dSep, trig));
    }
    assert queue.points == SeedPoints(ps, dSep, trig);
  }
}
