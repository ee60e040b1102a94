/** One streamline (`lefer::Curve`): parallel per-step vectors and a step counter. */
module Curves {
  import opened Geometry

  /** The value of a finished curve: its id, its points in insertion order and each
      point's direction tag (0 for the subtracting pass, 1 for the adding pass). The step
      id of a point is its position and the number of steps taken is `|points|`. */
  datatype Streamline = Streamline(id: int, points: seq<Point>, tags: seq<int>)

  class Curve {
    var curveId: int
    var x: seq<real>
    var y: seq<real>
    var direction: seq<int>
    var stepId: seq<int>
    var stepsTaken: int
    /** The coordinate vectors read as points. */
    ghost var points: seq<Point>

    /** The four vectors have `stepsTaken` entries, step ids count 0, 1, 2, ... and
        `points` pairs up the coordinates. */
    ghost predicate Valid()
      reads this
    {
      |x| == stepsTaken && |y| == stepsTaken && |direction| == stepsTaken && |stepId| == stepsTaken &&
      |points| == stepsTaken &&
      forall i :: 0 <= i < stepsTaken ==> stepId[i] == i && points[i] == Point(x[i], y[i])
    }

    /** The curve as a value. */
    ghost function Value(): Streamline
      reads this
    {
      Streamline(curveId, points, direction)
    }

    /** `Curve(id, n_steps)`: an empty curve; `n_steps` only reserves storage. */
    constructor (id: int, nSteps: int)
      ensures Valid() && curveId == id && stepsTaken == 0
      ensures x == [] && y == [] && direction == [] && stepId == []
    {
      curveId := id;
      stepsTaken := 0;
      x, y, direction, stepId := [], [], [], [];
      points := [];
    }

    /** `Curve::insert_step`: one entry more in each vector, the new step id is the old
        step count, and the count grows by one. */
    method InsertStep(xCoord: real, yCoord: real, directionId: int)
      requires Valid()
      modifies this
      ensures Valid() && curveId == old(curveId)
      ensures x == old(x) + [xCoord] && y == old(y) + [yCoord]
      ensures direction == old(direction) + [directionId]
      ensures stepId == old(stepId) + [old(stepsTaken)] && stepsTaken == old(stepsTaken) + 1
      ensures points == old(points) + [Point(xCoord, yCoord)]
    {
      x := x + [xCoord];
      y := y + [yCoord];
      direction := direction + [directionId];
      stepId := stepId + [stepsTaken];
      stepsTaken := stepsTaken + 1;
      points := points + [Point(xCoord, yCoord)];
    }
  }
}
