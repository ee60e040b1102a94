/** The read-only angle grid (`lefer::FlowField`). */
module FlowFields {
  import opened Geometry

  /** `angles[col][row]` is the flow direction, in radians, of the unit cell with that
      column and row; the field covers the square [0, width) x [0, width). */
  datatype FlowField = FlowField(angles: seq<seq<real>>, width: int)
  {
    /** The matrix has at least `width` columns of at least `width` rows: the source
        indexes it with no bounds check, so callers must supply such a matrix. */
    ghost predicate Valid()
    {
      width > 0 && |angles| >= width && forall i :: 0 <= i < width ==> |angles[i]| >= width
    }

    /** `FlowField::off_boundaries`: the point lies outside the open square (0, width)². */
    predicate OffBoundaries(x: real, y: real)
    {
      x <= 0.0 || y <= 0.0 || x >= width as real || y >= width as real
    }

    /** `get_flow_field_col` / `get_flow_field_row`: the cell index of one coordinate. */
    function Cell(v: real): int
    {
      Trunc(v)
    }

    /** `FlowField::get_angle`: the matrix entry of the cell the truncated coordinates
        name; inside the domain both indices lie in [0, width). */
    function GetAngle(x: real, y: real): (a: real)
      requires Valid() && !OffBoundaries(x, y)
      ensures 0 <= Cell(x) < width && 0 <= Cell(y) < width
      ensures a == angles[x.Floor][y.Floor]
    {
      angles[Cell(x)][Cell(y)]
    }
  }

  /** A point is on the field exactly when both coordinates lie strictly between 0 and
      the width; there the truncation of each coordinate is its floor, an index in
      [0, width), and `get_angle` reads the entry of the unit cell holding the point. */
  lemma GetAngleReadsEnclosingCell(field: FlowField, x: real, y: real)
    requires field.Valid()
    ensures !field.OffBoundaries(x, y) <==> 0.0 < x < field.width as real && 0.0 < y < field.width as real
    ensures !field.OffBoundaries(x, y) ==>
              field.Cell(x) == x.Floor && field.Cell(y) == y.Floor &&
              field.Cell(x) as real <= x < field.Cell(x) as real + 1.0 &&
              field.Cell(y) as real <= y < field.Cell(y) as real + 1.0 &&
              field.GetAngle(x, y) == field.angles[x.Floor][y.Floor]
  {
  }
}
