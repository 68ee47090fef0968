# Binary puzzle grid: a verified Dafny model

This project models the grid core of a binary-puzzle ("Takuzu") validator, the file
`src/grid.rs`. A grid is a rectangle of cells. Each cell holds `Zero`, `One`, or is unknown.
The model covers:

- **parsing** text lines into a grid (`Grid::parse`);
- **validating** a possibly partial grid (`is_valid` with `check_cells`, `check_balance` and
  `check_lanes`). A grid is invalid when it has three equal determined cells in a row or
  column, a fully determined line with unequal counts of the two symbols, or two equal
  fully determined rows or columns;
- **rendering** a grid as text (`Display`);
- **solving**, as far as it is written: validate, then succeed if the grid is filled;
- the helpers `is_filled`, `Index` and `Not`.

Layout, one module per file:

- `cells.dfy` (`Cells`): the cell type, negation and display.
- `errors.dfy` (`Errors`): the error variants and the result type.
- `grids.dfy` (`Grids`): the grid value, its rows, columns and index.
- `parser.dfy` (`Parser`): `Parse` is the loop over lines. `ReadCells` is its inner loop over
  characters, moved into a method of its own. `LineCells`, `KeptRows` and `Parsed` describe
  what the loops compute after each character and line.
- `parser_lemmas.dfy` (`ParserLemmas`): reference definitions read front to back, and what
  parsing promises.
- `render.dfy` (`Render`): `Fmt` is the writing loop. `Rendered` describes its text.
- `roundtrip.dfy` (`RoundTrip`): rendering then parsing gives the grid back.
- `checker.dfy` (`Checker`): the rules as predicates, and `Validate`, the verdict in its
  reporting order. It also holds the three check loops, one method per statement of
  `is_valid`, and `IsValid` and `Solve`.
- `checker_lemmas.dfy` (`CheckerLemmas`): the verdict stated cell by cell, when `is_valid`
  cannot panic, and what a solved grid satisfies.
- `scenarios.dfy` (`Scenarios`): concrete inputs.

Modelling choices:

- The implemented code never changes a grid after `parse` builds it. So a grid is a
  datatype value: cells as `seq<seq<Option<Cell>>>`, plus width and height.
- Each loop of the source is a method with loop invariants. Its `ensures` ties the result
  to a pure function, and the lemmas state the promised properties about those functions.
- `is_valid` is six `try_for_each(...)?` statements in a row. Each statement is its own
  method (`CheckRowRuns` … `CheckColPairs`), and `IsValid` calls the six in the same order
  with the same early returns.
- The counter map of `check_balance` is a `map<Cell, nat>`. The final lookup of both keys
  needs both symbols to have been seen.
- Panics are preconditions. `IsValid` and `Solve` require `ValidateDefined`. That predicate
  holds exactly on the grids where the subtractions at lines 84 and 88 do not underflow and
  the count lookup at line 145 finds both keys. The column subtraction is reached only when
  no row has a run, so a one-row grid with a run gets `AdjacentCells`, not a panic.
  `CheckerLemmas.ValidateDefinedWhenLarge` proves that every grid of at least 3×3 meets it.
- The line source yields `Text(s)` or `Unreadable(cause)`. A read error becomes `Io(cause)`
  at the point where the source reads it.

## Model

| member | source | states |
|---|---|---|
| `Cells.Not` | src/grid.rs:211-219 | Negation never returns its argument, and returns One exactly for Zero |
| `Cells.NotInvolution` | src/grid.rs:211-219 | Negating twice gives the cell back |
| `Cells.CellChar` | src/grid.rs:194-201 | A cell is displayed as '0' or '1', and as '0' exactly when it is Zero |
| `Grids.Index` | src/grid.rs:203-209 | Indexing (i, j) gives cell j of row i, which is also cell i of column j |
| `Grids.FilledIffLinesFull` | src/grid.rs:77-79 | A grid is filled exactly when every row has no unknown cell, and exactly when every column has none |
| `Parser.ReadCells` | src/grid.rs:30-42 | The character loop computes `LineCells(s)`: the cells of the line in order, or InvalidChar of the first refused character |
| `Parser.Parse` | src/grid.rs:21-63 | The nested loops with their early returns compute `Parsed(lines)`: the first read error, refused character or width mismatch, else EmptyGrid, else the grid of kept rows |
| `Parser.LineCellsErrSticky` | src/grid.rs:38-40 | Once a prefix of a line has a refused character, the whole line fails with that character |
| `Parser.KeptRowsErrSticky` | src/grid.rs:29-53 | Once a prefix of the input fails, parsing fails with that error and later lines do not matter |
| `ParserLemmas.SymbolsAppend` | src/grid.rs:32-41 | The cells a text spells distribute over concatenation |
| `ParserLemmas.BlankIffNoSymbols` | src/grid.rs:32-44 | A line yields no cell exactly when it is made only of spaces and tabs |
| `ParserLemmas.NonBlankRowsNonEmpty` | src/grid.rs:44-52 | Every kept row holds at least one cell |
| `ParserLemmas.LineCellsSpec` | src/grid.rs:32-41 | A line is accepted exactly when all its characters are 0, 1, -, space or tab. Its cells are then '0'→Zero, '1'→One, '-'→unknown, in order. Otherwise the error is InvalidChar of the first refused character |
| `ParserLemmas.KeptRowsSpec` | src/grid.rs:29-53 | Collecting rows succeeds exactly when all lines are readable, all characters allowed and the non-blank lines all have one length. The rows are then the non-blank lines' cells in order. The error is never EmptyGrid, and a WidthMismatch names two different, non-zero lengths |
| `ParserLemmas.KeptRowsErrors` | src/grid.rs:29-53 | Every kept row holds at least one cell. Collecting rows never reports EmptyGrid, and a WidthMismatch names two different, non-zero lengths |
| `ParserLemmas.PrefixConditions` | src/grid.rs:44-52 | How "all allowed" and "rectangular" split over the last line read |
| `ParserLemmas.ParsedSpec` | src/grid.rs:21-63 | Parsing succeeds exactly when all lines are readable, all characters are allowed, and the non-blank lines are at least one and all of one length. The grid then has one row per non-blank line, is well formed (rectangular, width and height at least 1), and its width is the first row's length. EmptyGrid comes exactly when nothing else is wrong and no line is non-blank |
| `ParserLemmas.CleanStep` | src/grid.rs:29-53 | When nothing has gone wrong before line n, the kept rows so far are the non-blank lines' cells, and line n alone decides the next step |
| `ParserLemmas.FirstUnreadable` | src/grid.rs:29-32 | When nothing has gone wrong before line n and line n cannot be read, parsing fails with that read error |
| `ParserLemmas.FirstInvalidChar` | src/grid.rs:32-40 | When nothing has gone wrong before line n, parsing fails with InvalidChar of the first refused character of line n |
| `ParserLemmas.FirstWidthMismatch` | src/grid.rs:44-48 | When nothing has gone wrong before line n, and line n is allowed and non-blank but its length differs from the kept width, parsing fails with WidthMismatch(kept width, length of line n) |
| `Render.Fmt` | src/grid.rs:167-192 | The nested writing loop produces `Rendered(g)`: glyphs separated by single spaces, rows separated by newlines, no trailing newline |
| `RoundTrip.GlyphDecodes` | src/grid.rs:171-178 | Each written glyph is an allowed, non-space character that parses back to the same cell |
| `RoundTrip.RowTextSpells` | src/grid.rs:170-183 | The text of a row's first j cells parses to exactly those cells |
| `RoundTrip.RowTextChars` | src/grid.rs:170-183 | The text of a row's first j cells has only allowed characters and no newline |
| `RoundTrip.SplitExtendsLast` | src/main.rs:17 | Text without a newline extends the last line the line source yields |
| `RoundTrip.SplitNewline` | src/main.rs:17 | A newline starts a new, empty line |
| `RoundTrip.CompleteLine` | src/grid.rs:180-187 | Writing a row into an empty last line fills that line, and the newline after it opens the next one |
| `RoundTrip.SplitGridText` | src/grid.rs:169-188 | After i rows are written, the text splits into those rows' texts, plus an empty line if more rows follow |
| `RoundTrip.SplitRendered` | src/grid.rs:167-192 | Splitting the rendered grid at its newlines gives one line per row |
| `RoundTrip.NonBlankRowsAllKept` | src/grid.rs:44-52 | When no line is blank, every line becomes a row |
| `RoundTrip.ParseRowTexts` | src/grid.rs:21-63 | Parsing the rows' texts of a well-formed grid gives that grid |
| `RoundTrip.RenderParse` | src/grid.rs:167-192 | Rendering a well-formed grid, splitting the text into lines and parsing them gives the same cells, width and height |
| `RoundTrip.ParseRenderParse` | src/grid.rs:21-63 | A parsed grid is well formed, and rendering and re-parsing it gives it back |
| `Checker.CheckCells` | src/grid.rs:111-126 | Fails with AdjacentCells exactly when some window holds three present, equal cells, else Ok |
| `Checker.CheckBalance` | src/grid.rs:128-150 | For a line with an unknown cell, Ok. For a fully determined line, LaneUnbalanced exactly when the counts of Zero and One differ. Both counts must exist, so the caller supplies both symbols |
| `Checker.CountPositive` | src/grid.rs:132-145 | A symbol has a count entry, which is a positive count, exactly when it occurs in the line |
| `Checker.CheckLanes` | src/grid.rs:152-164 | SameLanes exactly when every compared pair holds two present, equal cells, else Ok |
| `Checker.RowWindowsRun` | src/grid.rs:84 | The row windows hold a triple exactly when the row has three equal determined consecutive cells |
| `Checker.ColWindowsRun` | src/grid.rs:88 | The same for the column windows and the column |
| `Checker.RowIndicesRead` | src/grid.rs:91 | The row's index sequence reads the row |
| `Checker.ColIndicesRead` | src/grid.rs:94 | The column's index sequence reads the column |
| `Checker.RowPairsSame` | src/grid.rs:99 | Every pair of rows i0, i1 matches exactly when both rows are fully determined and equal |
| `Checker.ColPairsSame` | src/grid.rs:105 | The same for two columns |
| `Checker.CheckRowRuns` | src/grid.rs:82-84 | AdjacentCells exactly when some row has a run, else Ok |
| `Checker.CheckColRuns` | src/grid.rs:86-88 | AdjacentCells exactly when some column has a run, else Ok |
| `Checker.CheckRowBalance` | src/grid.rs:90-91 | LaneUnbalanced exactly when some fully determined row is unbalanced, else Ok |
| `Checker.CheckColBalance` | src/grid.rs:93-94 | LaneUnbalanced exactly when some fully determined column is unbalanced, else Ok |
| `Checker.CheckRowPairs` | src/grid.rs:96-100 | Each row is compared with every later row. SameLanes exactly when two rows are fully determined and equal, else Ok |
| `Checker.CheckColPairs` | src/grid.rs:102-106 | SameLanes exactly when two columns are fully determined and equal, else Ok |
| `Checker.Validate` | src/grid.rs:81-109 | The verdict of `is_valid`, completed to every well-formed grid. It reports only AdjacentCells, LaneUnbalanced or SameLanes, never a parsing error. `CheckerLemmas.ValidateVerdict` states when it reports each |
| `Checker.IsValid` | src/grid.rs:81-109 | On every grid where it does not panic, the result is `Validate(g)`: the first failing family in the order row runs, column runs, row balance, column balance, equal rows, equal columns, else Ok |
| `Checker.Solve` | src/grid.rs:65-75 | Returns the validation error if there is one. Otherwise Solved exactly when the grid is filled, and the unimplemented outcome exactly when it is not |
| `Checker.BalanceVerdict` | src/grid.rs:145-147 | For a fully determined line holding both symbols, both counts exist, and they differ exactly when the line is unbalanced |
| `CheckerLemmas.CountsCoverFullLine` | src/grid.rs:134-143 | In a fully determined line, count(Zero) + count(One) is the length |
| `CheckerLemmas.BalancedLineEven` | src/grid.rs:145-147 | A fully determined line that passes the balance check has even length, half zeros |
| `CheckerLemmas.NoRunMeansMixed` | src/grid.rs:115-145 | A fully determined line of length at least 3 without a run holds both symbols |
| `CheckerLemmas.ValidateDefinedWhenLarge` | src/grid.rs:84-145 | With width and height at least 3, `is_valid` cannot underflow, and the count lookup always finds both keys |
| `CheckerLemmas.RunInRowIff` | src/grid.rs:83-84 | Some row has a run exactly when some cells (i, j), (i, j+1), (i, j+2) are present and equal |
| `CheckerLemmas.RunInColIff` | src/grid.rs:87-88 | Some column has a run exactly when some cells (i, j), (i+1, j), (i+2, j) are present and equal |
| `CheckerLemmas.ValidateVerdict` | src/grid.rs:81-109 | AdjacentCells exactly when some row or column window holds three present, equal cells. LaneUnbalanced exactly when there is no such window and a fully determined line has unequal counts. SameLanes exactly when neither holds and two fully determined rows (or columns) are equal. Ok exactly when none holds |
| `CheckerLemmas.SolvedIsSolution` | src/grid.rs:65-71 | A filled grid that `solve` accepts has no run. Every row and column holds as many zeros as ones, so width and height are even. Rows are pairwise different, and so are columns |
| `Scenarios.WidthMismatchExample` | src/grid.rs:45-48 | Lines "0 1" then "0 1 0" fail with WidthMismatch(2, 3) |
| `Scenarios.InvalidCharExample` | src/grid.rs:38-40 | Lines "1" then "0 x" fail with InvalidChar('x') |
| `Scenarios.EmptyGridExample` | src/grid.rs:55-57 | Lines of spaces and tabs only fail with EmptyGrid |
| `Scenarios.SingleRowRunRejected` | src/grid.rs:83-84 | The single row "0 0 0" gets AdjacentCells without reaching the column checks |
| `Scenarios.MissingCountExample` | src/grid.rs:145 | On the 2×2 grid "0 0" / "1 1", `is_valid` panics. The intended verdict is LaneUnbalanced |
| `Scenarios.ShortHeightExample` | src/grid.rs:88 | On the single row "0 1", `is_valid` panics. The intended verdict is LaneUnbalanced |

## Left out

- The search branch of `solve` (src/grid.rs:73) is `unimplemented!()`. `Solve` returns an explicit `Unimplemented` outcome there. No search is modelled, and there is no `Unsatisfiable` error because the code never produces one.
- `Solve` takes `&mut self` but never writes to the grid. A grid is a value here, so "solve leaves the cells unchanged" holds by construction.
- src/main.rs is not part of this model: argument handling, opening the file and printing. `RoundTrip.SplitLines` stands in for `BufRead::lines` only to state the text round trip. It cuts at every newline. It does not strip a `\r` before a newline. It keeps the empty piece after a final newline. Rendered text has neither case, and parsing skips empty lines anyway.
- The payload of a read error is abstracted to a number (`Io(cause)`); its conversion into `GridError` is not modelled.
- `fmt::Formatter` write errors are not modelled. Rendering produces a string.
- The `GridError` type lives in `error.rs`, which is not part of this model. `Errors.GridError` has only the variants the grid code uses, plus `Io` for read errors.
- `Checker.IsValid`, `Checker.Solve`: the panics of `is_valid` are preconditions (`ValidateDefined`), not behaviour. They are the `usize` underflow of `width - 2` / `height - 2` and the count lookup of a one-symbol line. `Grids.Index` likewise requires an in-range pair.
- `Checker.CheckBalance`, `CheckerLemmas.CountsCoverFullLine`: the counters of `check_balance` (src/grid.rs:132-137) are `i32`, because nothing fixes the type of the literal in `or_insert(1)`. `*count += 1` overflows once a line holds more than 2^31 - 1 cells of one symbol. The model counts with an unbounded `nat` (`Checker.Count`) and does not capture that overflow.
- Otherwise `usize` is modelled as `nat`. Apart from the `i32` counters and the two subtractions under Findings, no arithmetic of the core can overflow on a grid that fits in memory.
- A check with no window of three cells is evidently meant to pass trivially. The code panics instead (see Findings).
- Every kept row must be as long as the one before it (src/grid.rs:45-48), so all kept rows have the first row's length.

## Findings

| source | as written | input that shows it | evidently intended | confidence | as-written member | corrected member |
|---|---|---|---|---|---|---|
| src/grid.rs:145 | `balance[&Cell::Zero]` and `balance[&Cell::One]` index the counter map. A fully determined line that holds only one symbol has no entry for the other, so the lookup panics. Lines of width or height 2 can reach this, because they have no window of three cells | the 2×2 grid `0 0` / `1 1` | a missing symbol counts as zero, so the row is reported LaneUnbalanced | not executed | `Checker.IsValid` (requires `ValidateDefined`) with `Scenarios.MissingCountExample` | `Checker.Validate`, total on every well-formed grid, with its verdict proved in `CheckerLemmas.ValidateVerdict` and used by `Checker.Solve` |
| src/grid.rs:84, src/grid.rs:88 | `self.width - 2` and `self.height - 2` are `usize` subtractions. They underflow on a grid one cell wide, or one row high when no row has a run | the single row `0 1` | a check with no window of three cells passes trivially. Here the single-cell columns are then reported LaneUnbalanced | not executed | `Checker.IsValid` (requires `ValidateDefined`) with `Scenarios.ShortHeightExample` | `Checker.Validate`, with `CheckerLemmas.ValidateVerdict` |
