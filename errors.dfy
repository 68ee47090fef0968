/** The errors the grid operations report, and the result type that carries them. */
module Errors {

  /** The variants of the repository's `GridError` that the grid code produces. */
  datatype GridError =
    | InvalidChar(ch: char)                     // a character other than 0, 1, -, space or tab
    | WidthMismatch(expected: nat, found: nat)  // a row's length differs from the previous row's
    | EmptyGrid                                 // no non-blank line at all
    | AdjacentCells                             // three equal determined cells in a row or column
    | LaneUnbalanced                            // a fully determined line with unequal counts
    | SameLanes                                 // two fully determined rows (or columns) are equal
    | Io(cause: nat)                            // a read error from the line source, passed on as is

  datatype Result<+T> = Ok(value: T) | Err(error: GridError)
}
