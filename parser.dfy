/** `Grid::parse` (src/grid.rs:21-63): text lines to a rectangular grid of optional cells. */
module Parser {
  import opened Cells
  import opened Errors
  import opened Grids

  /** One item of the line source: a line of text, or a read error the source reports. */
  datatype InputLine = Text(s: string) | Unreadable(cause: nat)

  predicate IsSpace(ch: char) {
    ch == ' ' || ch == '\t'
  }

  /** The characters a grid line may contain. */
  predicate Allowed(ch: char) {
    IsSpace(ch) || ch == '0' || ch == '1' || ch == '-'
  }

  /** A line made only of spaces and tabs (the empty line included). */
  predicate Blank(s: string) {
    forall k :: 0 <= k < |s| ==> IsSpace(s[k])
  }

  // ---------------------------------------------------------------------------
  // The parser's behaviour, as functions over the input read so far
  // ---------------------------------------------------------------------------

  /** The cells collected from the characters of `s`, or the first character refused. */
  function LineCells(s: string): Result<Line>
    decreases |s|
  {
    if s == [] then Ok([])
    else
      match LineCells(s[..|s| - 1])
      case Err(e) => Err(e)
      case Ok(vec) =>
        var c := s[|s| - 1];
        if IsSpace(c) then Ok(vec)
        else if c == '0' then Ok(vec + [Some(Zero)])
        else if c == '1' then Ok(vec + [Some(One)])
        else if c == '-' then Ok(vec + [None])
        else Err(InvalidChar(c))
  }

  /** The rows kept after reading `lines`: blank lines are skipped, and each kept row
      must be as long as the row kept before it. */
  function KeptRows(lines: seq<InputLine>): Result<seq<Line>>
    decreases |lines|
  {
    if lines == [] then Ok([])
    else
      match KeptRows(lines[..|lines| - 1])
      case Err(e) => Err(e)
      case Ok(cells) =>
        match lines[|lines| - 1]
        case Unreadable(cause) => Err(Io(cause))
        case Text(s) =>
          match LineCells(s)
          case Err(e) => Err(e)
          case Ok(vec) =>
            if vec == [] then Ok(cells)
            else if cells != [] && |vec| != |cells[|cells| - 1]| then
              Err(WidthMismatch(|cells[|cells| - 1]|, |vec|))
            else Ok(cells + [vec])
  }

  /** The outcome of parsing all of `lines`. */
  function Parsed(lines: seq<InputLine>): Result<Grid> {
    match KeptRows(lines)
    case Err(e) => Err(e)
    case Ok(cells) =>
      if cells == [] then Err(EmptyGrid)
      else Ok(Grid(cells, |cells[0]|, |cells|))
  }

  // ---------------------------------------------------------------------------
  // The parser itself
  // ---------------------------------------------------------------------------

  /** Reads the cells of one line, character by character, stopping at the first refused
      character. */
  method ReadCells(s: string) returns (r: Result<Line>)
    ensures r == LineCells(s)
  {
    var vec: Line := [];
    for k := 0 to |s|
      invariant LineCells(s[..k]) == Ok(vec)
    {
      assert s[..k + 1][..k] == s[..k];
      var c := s[k];
      match c {
        case ' ' =>
        case '\t' =>
        case '0' => vec := vec + [Some(Zero)];
        case '1' => vec := vec + [Some(One)];
        case '-' => vec := vec + [None];
        case _ =>
          LineCellsErrSticky(s, k + 1);
          return Err(InvalidChar(c));
      }
    }
    assert s[..|s|] == s;
    return Ok(vec);
  }

  /** Reads the lines in order, keeping the non-blank ones; the first error ends parsing. */
  method Parse(lines: seq<InputLine>) returns (r: Result<Grid>)
    ensures r == Parsed(lines)
  {
    var cells: seq<Line> := [];
    for n := 0 to |lines|
      invariant KeptRows(lines[..n]) == Ok(cells)
    {
      assert lines[..n + 1][..n] == lines[..n];
      if lines[n].Unreadable? {
        KeptRowsErrSticky(lines, n + 1);
        return Err(Io(lines[n].cause));
      }
      var read := ReadCells(lines[n].s);
      if read.Err? {
        KeptRowsErrSticky(lines, n + 1);
        return Err(read.error);
      }
      var vec := read.value;
      if vec != [] {
        if cells != [] && |vec| != |cells[|cells| - 1]| {
          KeptRowsErrSticky(lines, n + 1);
          return Err(WidthMismatch(|cells[|cells| - 1]|, |vec|));
        }
        cells := cells + [vec];
      }
    }
    assert lines[..|lines|] == lines;
    if cells == [] {
      return Err(EmptyGrid);
    }
    return Ok(Grid(cells, |cells[0]|, |cells|));
  }

  /** Once a prefix of a line fails, the whole line fails the same way. */
  lemma {:induction false} LineCellsErrSticky(s: string, k: nat)
    requires k <= |s| && LineCells(s[..k]).Err?
    ensures LineCells(s) == LineCells(s[..k])
    decreases |s|
  {
    if k < |s| {
      assert s[..|s| - 1][..k] == s[..k];
      LineCellsErrSticky(s[..|s| - 1], k);
    } else {
      assert s[..k] == s;
    }
  }

  /** Once a prefix of the input fails, parsing the whole input fails the same way:
      later lines are never read. */
  lemma {:induction false} KeptRowsErrSticky(lines: seq<InputLine>, n: nat)
    requires n <= |lines| && KeptRows(lines[..n]).Err?
    ensures KeptRows(lines) == KeptRows(lines[..n])
    decreases |lines|
  {
    if n < |lines| {
      assert lines[..|lines| - 1][..n] == lines[..n];
      KeptRowsErrSticky(lines[..|lines| - 1], n);
    } else {
      assert lines[..n] == lines;
    }
  }
}
