/** The grid container: a rectangular array of optional cells, its lines and its index. */
module Grids {
  import opened Cells

  /** A row or a column, read in order. */
  type Line = seq<Option<Cell>>

  /** A (row, column) coordinate. */
  type Pos = (nat, nat)

  datatype Grid = Grid(cells: seq<Line>, width: nat, height: nat) {

    /** What `parse` establishes: `height` rows of `width` cells each, both at least one. */
    predicate WellFormed() {
      width >= 1 && height >= 1 && |cells| == height &&
      forall i :: 0 <= i < height ==> |cells[i]| == width
    }

    predicate InBounds(p: Pos) {
      p.0 < height && p.1 < width
    }
  }

  /** Row `i` of the grid. */
  function Row(g: Grid, i: nat): (line: Line)
    requires g.WellFormed() && i < g.height
    ensures |line| == g.width
  {
    g.cells[i]
  }

  /** Column `j` of the grid, top to bottom. */
  function Col(g: Grid, j: nat): (line: Line)
    requires g.WellFormed() && j < g.width
    ensures |line| == g.height
    ensures forall i :: 0 <= i < g.height ==> line[i] == g.cells[i][j]
  {
    seq(g.height, i requires 0 <= i < g.height => g.cells[i][j])
  }

  /** Indexing by a (row, column) pair; an out-of-range pair is a caller error. */
  function Index(g: Grid, p: Pos): (r: Option<Cell>)
    requires g.WellFormed() && g.InBounds(p)
    ensures r == Row(g, p.0)[p.1]
    ensures r == Col(g, p.1)[p.0]
  {
    g.cells[p.0][p.1]
  }

  /** A line with no unknown cell. */
  predicate Full(line: Line) {
    forall k :: 0 <= k < |line| ==> line[k].Some?
  }

  /** No cell of the grid is unknown. */
  predicate IsFilled(g: Grid)
    requires g.WellFormed()
  {
    forall i, j :: 0 <= i < g.height && 0 <= j < g.width ==> g.cells[i][j].Some?
  }

  /** A grid is filled exactly when all its rows are full, and exactly when all its columns are. */
  lemma FilledIffLinesFull(g: Grid)
    requires g.WellFormed()
    ensures IsFilled(g) <==> forall i :: 0 <= i < g.height ==> Full(Row(g, i))
    ensures IsFilled(g) <==> forall j :: 0 <= j < g.width ==> Full(Col(g, j))
  {
    if !IsFilled(g) {
      var i, j :| 0 <= i < g.height && 0 <= j < g.width && g.cells[i][j].None?;
      assert !Full(Row(g, i));
      assert Col(g, j)[i].None?;
    }
  }
}
