/** The spatial bucket index over committed points (`lefer::DensityGrid`): cells of side
    `d_sep`, each a saturating store of points, and the separation query. */
module Density {
  import opened Geometry
  import opened Curves

  /** `get_density_col`: the grid column of an x coordinate. */
  function DensityCol(x: real, dSep: real): int
    requires dSep != 0.0
  {
    Trunc(x / dSep)
  }

  /** `get_density_row`: the grid row of a y coordinate. */
  function DensityRow(y: real, dSep: real): int
    requires dSep != 0.0
  {
    Trunc(y / dSep)
  }

  /** `get_density_index(col, row)`: cells are stored row after row. */
  function CellIndex(col: int, row: int, width: int): int
  {
    col + width * row
  }

  /** `DensityGrid::off_boundaries`: the point's cell is in the outer ring or outside the
      grid (column or row 0 counts as outside). */
  predicate OffGrid(x: real, y: real, dSep: real, width: int, height: int)
    requires dSep != 0.0
  {
    DensityCol(x, dSep) <= 0 || DensityRow(y, dSep) <= 0 ||
    DensityCol(x, dSep) >= width || DensityRow(y, dSep) >= height
  }

  /** `d_test` of `is_valid_next_step`: 99% of the separation distance. */
  function TestDistance(dSep: real): real
  {
    dSep - 0.01 * dSep
  }

  /** The block of cells `is_valid_next_step` scans. */
  datatype Window = Window(startCol: int, endCol: int, startRow: int, endRow: int)
  {
    predicate Contains(c: int, r: int)
    {
      startCol <= c <= endCol && startRow <= r <= endRow
    }
  }

  /** The clamp exactly as the source writes it: the row range is cut at the grid WIDTH
      and the column range at the grid HEIGHT. */
  function Neighbourhood(col: int, row: int, width: int, height: int): Window
  {
    Window(if col - 1 > 0 then col - 1 else 0,
           if col + 1 < height then col + 1 else col,
           if row - 1 > 0 then row - 1 else 0,
           if row + 1 < width then row + 1 else row)
  }

  lemma MulMonotone(a: int, b: int, c: int)
    requires 0 <= a && b <= c
    ensures a * b <= a * c
  {
    assert a * c - a * b == a * (c - b);
  }

  /** A cell inside the grid has an index inside the cell vector. */
  lemma IndexInRange(col: int, row: int, width: int, height: int)
    requires 0 <= col < width && 0 <= row < height
    ensures 0 <= CellIndex(col, row, width) < width * height
  {
    MulMonotone(width, 0, row);
    MulMonotone(width, row, height - 1);
  }

  /** With a square grid, which every caller builds, the clamped block lies inside the
      grid around any in-bounds point, so the scan reads only existing cells. */
  lemma WindowInGrid(col: int, row: int, width: int, height: int)
    requires 0 < col < width && 0 < row < height && width == height
    ensures forall c, r :: Neighbourhood(col, row, width, height).Contains(c, r) ==>
              0 <= c < width && 0 <= r < height && 0 <= CellIndex(c, r, width) < width * height
  {
    forall c, r | Neighbourhood(col, row, width, height).Contains(c, r)
      ensures 0 <= c < width && 0 <= r < height && 0 <= CellIndex(c, r, width) < width * height
    {
      IndexInRange(c, r, width, height);
    }
  }

  /** With width 5 and height 3 the swapped clamp lets the scan reach row 3, past the
      last row, at an index beyond the 15 cells: the source would read out of range. */
  lemma SwappedClampLeavesNonSquareGrid()
    ensures var w := Neighbourhood(DensityCol(1.5, 1.0), DensityRow(2.5, 1.0), 5, 3);
            !OffGrid(1.5, 2.5, 1.0, 5, 3) && w.Contains(1, 3) && CellIndex(1, 3, 5) >= 5 * 3
  {
    assert DensityCol(1.5, 1.0) == 1 && DensityRow(2.5, 1.0) == 2;
  }

  /** One cell (`struct DensityCell`): the stored coordinates, the capacity fixed at
      construction and the number of points stored. */
  datatype DensityCell = DensityCell(x: seq<real>, y: seq<real>, capacity: int, spaceUsed: int)
  {
    /** `space_used` counts the stored points, and a non-empty cell holds at most
        `capacity - 1` of them. */
    ghost predicate Valid()
    {
      |x| == spaceUsed && |y| == spaceUsed && (spaceUsed == 0 || spaceUsed < capacity)
    }

    /** Some stored point lies within `dTest` of `p` (the test `dist <= d_test`). */
    ghost predicate Crowds(p: Point, dTest: real)
    {
      exists i :: 0 <= i < spaceUsed && i < |x| && i < |y| &&
                  SquaredDistance(p, Point(x[i], y[i])) <= dTest * dTest
    }
  }

  /** A point crowding a cell still crowds it after more points are appended. */
  lemma CrowdsMonotone(a: DensityCell, b: DensityCell, p: Point, dTest: real)
    requires a.Valid() && b.Valid() && a.x <= b.x && a.y <= b.y
    ensures a.Crowds(p, dTest) ==> b.Crowds(p, dTest)
  {
    if a.Crowds(p, dTest) {
      var i :| 0 <= i < a.spaceUsed && i < |a.x| && i < |a.y| &&
               SquaredDistance(p, Point(a.x[i], a.y[i])) <= dTest * dTest;
      assert b.x[i] == a.x[i] && b.y[i] == a.y[i];
    }
  }

  /** The contents of a density grid as a value. */
  datatype GridState = GridState(width: int, height: int, dSep: real, cells: seq<DensityCell>)
  {
    ghost predicate Valid()
    {
      0 <= width && 0 <= height && dSep > 0.0 && |cells| == width * height &&
      forall i :: 0 <= i < |cells| ==> cells[i].Valid()
    }

    /** `h` is this grid with possibly more points appended to its cells. */
    ghost predicate GrowsInto(h: GridState)
    {
      h.width == width && h.height == height && h.dSep == dSep && |h.cells| == |cells| &&
      forall i :: 0 <= i < |cells| ==>
        cells[i].capacity == h.cells[i].capacity && cells[i].x <= h.cells[i].x && cells[i].y <= h.cells[i].y
    }

    /** `DensityGrid::insert_coord`: nothing happens off the grid; otherwise the point's
        own cell, and no other, gets the point appended when one more point still leaves
        it below capacity, and is left as it was when it is full. */
    ghost function WithCoord(x: real, y: real): (g: GridState)
      requires Valid()
      ensures g.Valid() && GrowsInto(g)
      ensures OffGrid(x, y, dSep, width, height) ==> g == this
      ensures !OffGrid(x, y, dSep, width, height) ==>
                var i := CellIndex(DensityCol(x, dSep), DensityRow(y, dSep), width);
                0 <= i < |cells| &&
                (forall j :: 0 <= j < |cells| && j != i ==> g.cells[j] == cells[j]) &&
                (cells[i].spaceUsed + 1 < cells[i].capacity ==>
                   g.cells[i].x == cells[i].x + [x] && g.cells[i].y == cells[i].y + [y]) &&
                (cells[i].spaceUsed + 1 >= cells[i].capacity ==> g.cells[i] == cells[i])
    {
      var col, row := DensityCol(x, dSep), DensityRow(y, dSep);
      if OffGrid(x, y, dSep, width, height) then this
      else
        IndexInRange(col, row, width, height);
        var i := CellIndex(col, row, width);
        var cell := cells[i];
        if cell.spaceUsed + 1 < cell.capacity then
          GridState(width, height, dSep,
                    cells[i := DensityCell(cell.x + [x], cell.y + [y], cell.capacity, cell.spaceUsed + 1)])
        else
          this
    }

    /** `insert_curve_coords` on a curve with these points: one `insert_coord` per point,
        in order. The grid only ever grows. */
    ghost function WithPoints(ps: seq<Point>): (g: GridState)
      requires Valid()
      ensures g.Valid() && GrowsInto(g)
      decreases |ps|
    {
      if ps == [] then this else WithCoord(ps[0].x, ps[0].y).WithPoints(ps[1..])
    }

    /** `is_valid_next_step` as a predicate: the point is on the grid and no point stored
        in the clamped 3x3 block around its cell lies within `d_test` of it. Cells the
        block names outside the vector (possible only when width != height; the source
        reads them unchecked) are not consulted. */
    ghost predicate Admits(x: real, y: real)
      requires Valid()
    {
      !OffGrid(x, y, dSep, width, height) &&
      var w := Neighbourhood(DensityCol(x, dSep), DensityRow(y, dSep), width, height);
      forall c, r :: w.Contains(c, r) && 0 <= CellIndex(c, r, width) < |cells| ==>
        !cells[CellIndex(c, r, width)].Crowds(Point(x, y), TestDistance(dSep))
    }
  }

  /** A grid that only gained points admits no point the smaller grid rejected: a
      rejection is never withdrawn later in a run. */
  lemma AdmitsAntitone(g: GridState, h: GridState, x: real, y: real)
    requires g.Valid() && h.Valid() && g.GrowsInto(h)
    ensures h.Admits(x, y) ==> g.Admits(x, y)
  {
    if h.Admits(x, y) {
      var w := Neighbourhood(DensityCol(x, g.dSep), DensityRow(y, g.dSep), g.width, g.height);
      forall c, r | w.Contains(c, r) && 0 <= CellIndex(c, r, g.width) < |g.cells|
        ensures !g.cells[CellIndex(c, r, g.width)].Crowds(Point(x, y), TestDistance(g.dSep))
      {
        var i := CellIndex(c, r, g.width);
        CrowdsMonotone(g.cells[i], h.cells[i], Point(x, y), TestDistance(g.dSep));
      }
    }
  }

  /** A point the grid admits lies more than `d_test` from every point stored in the
      cells of its clamped block. */
  lemma AdmittedIsSeparated(g: GridState, x: real, y: real, c: int, r: int, m: nat)
    requires g.Valid() && g.Admits(x, y)
    requires Neighbourhood(DensityCol(x, g.dSep), DensityRow(y, g.dSep), g.width, g.height).Contains(c, r)
    requires 0 <= CellIndex(c, r, g.width) < |g.cells| && m < g.cells[CellIndex(c, r, g.width)].spaceUsed
    ensures var cell := g.cells[CellIndex(c, r, g.width)];
            SquaredDistance(Point(x, y), Point(cell.x[m], cell.y[m])) > TestDistance(g.dSep) * TestDistance(g.dSep)
  {
    var cell := g.cells[CellIndex(c, r, g.width)];
    assert !cell.Crowds(Point(x, y), TestDistance(g.dSep));
  }

  /** The freshly built grid: `(int)(extent / d_sep)` cells per axis, each empty with the
      given capacity. */
  ghost function EmptyGrid(fieldWidth: int, fieldHeight: int, dSep: real, capacity: int): (g: GridState)
    requires 0 <= fieldWidth && 0 <= fieldHeight && dSep > 0.0
    ensures g.Valid() && g.dSep == dSep
    ensures g.width == Trunc(fieldWidth as real / dSep) && g.height == Trunc(fieldHeight as real / dSep)
    ensures forall i :: 0 <= i < |g.cells| ==> g.cells[i] == DensityCell([], [], capacity, 0)
  {
    var w := Trunc(fieldWidth as real / dSep);
    var h := Trunc(fieldHeight as real / dSep);
    MulMonotone(w, 0, h);
    GridState(w, h, dSep, seq(w * h, _ => DensityCell([], [], capacity, 0)))
  }

  /** An empty grid rejects exactly the points off the grid. */
  lemma EmptyGridAdmits(fieldWidth: int, fieldHeight: int, dSep: real, capacity: int, x: real, y: real)
    requires 0 <= fieldWidth && 0 <= fieldHeight && dSep > 0.0
    ensures var g := EmptyGrid(fieldWidth, fieldHeight, dSep, capacity);
            g.Admits(x, y) <==> !OffGrid(x, y, dSep, g.width, g.height)
  {
  }

  class DensityGrid {
    const width: int
    const height: int
    const nElements: int
    const dSep: real
    const cells: array<DensityCell>

    ghost function State(): GridState
      reads this, cells
    {
      GridState(width, height, dSep, cells[..])
    }

    ghost predicate Valid()
      reads this, cells
    {
      State().Valid() && nElements == cells.Length
    }

    /** `DensityGrid(flow_field_width, flow_field_height, d_sep, cell_capacity)`, as
        intended: `width * height` empty cells of the given capacity. */
    constructor (flowFieldWidth: int, flowFieldHeight: int, dSep: real, cellCapacity: int)
      requires 0 <= flowFieldWidth && 0 <= flowFieldHeight && dSep > 0.0
      ensures Valid() && fresh(cells)
      ensures State() == EmptyGrid(flowFieldWidth, flowFieldHeight, dSep, cellCapacity)
    {
      var gridWidth := Trunc(flowFieldWidth as real / dSep);
      var gridHeight := Trunc(flowFieldHeight as real / dSep);
      MulMonotone(gridWidth, 0, gridHeight);
      this.dSep := dSep;
      width := gridWidth;
      height := gridHeight;
      nElements := gridWidth * gridHeight;
      cells := new DensityCell[gridWidth * gridHeight](_ => DensityCell([], [], cellCapacity, 0));
      new;
      assert cells[..] == EmptyGrid(flowFieldWidth, flowFieldHeight, dSep, cellCapacity).cells;
    }

    /** `DensityGrid::insert_coord`. */
    method InsertCoord(x: real, y: real)
      requires Valid()
      modifies cells
      ensures Valid() && State() == old(State()).WithCoord(x, y)
    {
      if OffGrid(x, y, dSep, width, height) {
        return;
      }
      var col, row := DensityCol(x, dSep), DensityRow(y, dSep);
      IndexInRange(col, row, width, height);
      var densityIndex := CellIndex(col, row, width);
      var spaceUsed := cells[densityIndex].spaceUsed;
      var capacity := cells[densityIndex].capacity;
      if spaceUsed + 1 < capacity {
        var cell := cells[densityIndex];
        cells[densityIndex] := DensityCell(cell.x + [x], cell.y + [y], capacity, spaceUsed + 1);
        assert cells[..] == old(cells[..])[densityIndex := cells[densityIndex]];
      }
    }

    /** `DensityGrid::insert_curve_coords`: every step of the curve, in order. */
    method InsertCurveCoords(curve: Curve)
      requires Valid() && curve.Valid()
      modifies cells
      ensures Valid() && State() == old(State()).WithPoints(curve.points)
    {
      ghost var ps := curve.points;
      var stepsTaken := curve.stepsTaken;
      for i := 0 to stepsTaken
        invariant Valid()
        invariant State().WithPoints(ps[i..]) == old(State()).WithPoints(ps)
      {
        assert ps[i..][1..] == ps[i + 1..];
        InsertCoord(curve.x[i], curve.y[i]);
      }
      assert ps[stepsTaken..] == [];
    }

    /** The innermost loop of `is_valid_next_step`: is some point stored in one cell
        within `dTest` of `p`? An empty cell is skipped without scanning. */
    method ScanCell(densityIndex: int, p: Point, dTest: real) returns (crowded: bool)
      requires Valid() && 0 <= densityIndex < cells.Length
      ensures crowded == cells[densityIndex].Crowds(p, dTest)
    {
      var cell := cells[densityIndex];
      var nElements := cell.spaceUsed;
      if nElements == 0 {
        return false;
      }
      for i := 0 to nElements
        invariant forall i' :: 0 <= i' < i ==> SquaredDistance(p, Point(cell.x[i'], cell.y[i'])) > dTest * dTest
      {
        var x2, y2 := cell.x[i], cell.y[i];
        if SquaredDistance(p, Point(x2, y2)) <= dTest * dTest {
          return true;
        }
      }
      return false;
    }

    /** `DensityGrid::is_valid_next_step`: scans the clamped block column by column, row
        by row, and stops at the first stored point within `d_test`. It only reads. */
    method IsValidNextStep(x: real, y: real) returns (valid: bool)
      requires Valid() && width == height
      ensures valid == State().Admits(x, y)
    {
      if OffGrid(x, y, dSep, width, height) {
        return false;
      }
      var densityCol, densityRow := DensityCol(x, dSep), DensityRow(y, dSep);
      var w := Neighbourhood(densityCol, densityRow, width, height);
      WindowInGrid(densityCol, densityRow, width, height);
      var dTest := TestDistance(dSep);
      var p := Point(x, y);
      for c := w.startCol to w.endCol + 1
        invariant forall c', r' :: w.Contains(c', r') && c' < c ==> !cells[CellIndex(c', r', width)].Crowds(p, dTest)
      {
        for r := w.startRow to w.endRow + 1
          invariant forall r' :: w.startRow <= r' < r ==> !cells[CellIndex(c, r', width)].Crowds(p, dTest)
        {
          var densityIndex := CellIndex(c, r, width);
          var crowded := ScanCell(densityIndex, p, dTest);
          if crowded {
            assert w.Contains(c, r);
            return false;
          }
        }
      }
      assert forall c', r' :: w.Contains(c', r') && 0 <= CellIndex(c', r', width) < cells.Length ==>
        !State().cells[CellIndex(c', r', width)].Crowds(p, dTest);
      return true;
    }
  }
}
