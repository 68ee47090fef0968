/** The two puzzle symbols (src/grid.rs:14-18), their negation and their display. */
module Cells {

  /** A possibly absent value; an unknown cell is `None` at the grid level. */
  datatype Option<+T> = None | Some(value: T)

  /** One of the two symbols of the binary puzzle. */
  datatype Cell = Zero | One

  /** `!` on a cell swaps the two symbols. */
  function Not(c: Cell): (r: Cell)
    ensures r != c
    ensures c == Zero <==> r == One
  {
    match c
    case Zero => One
    case One => Zero
  }

  /** Negating twice gives the cell back. */
  lemma NotInvolution(c: Cell)
    ensures Not(Not(c)) == c
  {
  }

  /** The character a cell is displayed as. */
  function CellChar(c: Cell): (ch: char)
    ensures ch == '0' || ch == '1'
    ensures ch == '0' <==> c == Zero
  {
    match c
    case Zero => '0'
    case One => '1'
  }
}
