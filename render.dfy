/** `Display` for `Grid` and `Cell` (src/grid.rs:167-201): a grid as text. */
module Render {
  import opened Cells
  import opened Grids

  /** The character written for one cell: its symbol, or `-` when unknown. */
  function Glyph(v: Option<Cell>): char {
    match v
    case Some(c) => CellChar(c)
    case None => '-'
  }

  /** The text written for the first `j` cells of `row`: each cell's glyph, followed by a
      space unless it is the last cell of the row. */
  function RowText(row: Line, j: nat): string
    requires j <= |row|
    decreases j
  {
    if j == 0 then ""
    else RowText(row, j - 1) + [Glyph(row[j - 1])] + (if j < |row| then " " else "")
  }

  /** The text written for the first `i` rows: each row's text, followed by a newline unless
      it is the last row of the grid. */
  function GridText(g: Grid, i: nat): string
    requires g.WellFormed() && i <= g.height
    decreases i
  {
    if i == 0 then ""
    else GridText(g, i - 1) + RowText(g.cells[i - 1], g.width) + (if i < g.height then "\n" else "")
  }

  /** The whole text of a grid. */
  function Rendered(g: Grid): string
    requires g.WellFormed()
  {
    GridText(g, g.height)
  }

  /** Writes the grid row by row, cell by cell. */
  method Fmt(g: Grid) returns (out: string)
    requires g.WellFormed()
    ensures out == Rendered(g)
  {
    out := "";
    for i := 0 to g.height
      invariant out == GridText(g, i)
    {
      for j := 0 to g.width
        invariant out == GridText(g, i) + RowText(g.cells[i], j)
      {
        match g.cells[i][j] {
          case Some(cell) => out := out + [CellChar(cell)];
          case None => out := out + "-";
        }
        if j < g.width - 1 {
          out := out + " ";
        }
      }
      if i < g.height - 1 {
        out := out + "\n";
      }
    }
  }
}
