/** Concrete inputs: the behaviour the program shows on small grids. */
module Scenarios {
  import opened Cells
  import opened Errors
  import opened Grids
  import opened Parser
  import opened Checker

  /** Reading one more character of a line. */
  lemma ReadChar(s: string, c: char, vec: Line)
    requires LineCells(s) == Ok(vec)
    ensures LineCells(s + [c]) ==
      if IsSpace(c) then Ok(vec)
      else if c == '0' then Ok(vec + [Some(Zero)])
      else if c == '1' then Ok(vec + [Some(One)])
      else if c == '-' then Ok(vec + [None])
      else Err(InvalidChar(c))
  {
    assert (s + [c])[..|s|] == s;
  }

  /** Reading one more line. */
  lemma ReadLine(lines: seq<InputLine>, cells: seq<Line>, s: string, vec: Line)
    requires KeptRows(lines) == Ok(cells) && LineCells(s) == Ok(vec)
    ensures KeptRows(lines + [Text(s)]) ==
      if vec == [] then Ok(cells)
      else if cells != [] && |vec| != |cells[|cells| - 1]| then
        Err(WidthMismatch(|cells[|cells| - 1]|, |vec|))
      else Ok(cells + [vec])
  {
    assert (lines + [Text(s)])[..|lines|] == lines;
  }

  /** The line "0 1" reads as two cells. */
  lemma ZeroOneLine()
    ensures LineCells("0 1") == Ok([Some(Zero), Some(One)])
  {
    var z, o := Some(Zero), Some(One);
    ReadChar("", '0', []);
    assert "" + ['0'] == "0" && [] + [z] == [z];
    ReadChar("0", ' ', [z]);
    assert "0" + [' '] == "0 ";
    ReadChar("0 ", '1', [z]);
    assert "0 " + ['1'] == "0 1" && [z] + [o] == [z, o];
  }

  /** The line "0 1 0" reads as three cells. */
  lemma ZeroOneZeroLine()
    ensures LineCells("0 1 0") == Ok([Some(Zero), Some(One), Some(Zero)])
  {
    var z, o := Some(Zero), Some(One);
    ZeroOneLine();
    ReadChar("0 1", ' ', [z, o]);
    assert "0 1" + [' '] == "0 1 ";
    ReadChar("0 1 ", '0', [z, o]);
    assert "0 1 " + ['0'] == "0 1 0" && [z, o] + [z] == [z, o, z];
  }

  /** A second row longer than the first is reported with both lengths. */
  lemma WidthMismatchExample()
    ensures Parsed([Text("0 1"), Text("0 1 0")]) == Err(WidthMismatch(2, 3))
  {
    var z, o := Some(Zero), Some(One);
    ZeroOneLine();
    ZeroOneZeroLine();
    ReadLine([], [], "0 1", [z, o]);
    assert [] + [Text("0 1")] == [Text("0 1")] && [] + [[z, o]] == [[z, o]];
    ReadLine([Text("0 1")], [[z, o]], "0 1 0", [z, o, z]);
    assert [Text("0 1")] + [Text("0 1 0")] == [Text("0 1"), Text("0 1 0")];
  }

  /** The line "0 x" fails on its third character. */
  lemma RefusedLine()
    ensures LineCells("0 x") == Err(InvalidChar('x'))
  {
    var z := Some(Zero);
    ReadChar("", '0', []);
    assert "" + ['0'] == "0" && [] + [z] == [z];
    ReadChar("0", ' ', [z]);
    assert "0" + [' '] == "0 ";
    ReadChar("0 ", 'x', [z]);
    assert "0 " + ['x'] == "0 x";
  }

  /** A refused character is reported even when it follows a good line. */
  lemma InvalidCharExample()
    ensures Parsed([Text("1"), Text("0 x")]) == Err(InvalidChar('x'))
  {
    var o := Some(One);
    ReadChar("", '1', []);
    assert "" + ['1'] == "1" && [] + [o] == [o];
    RefusedLine();
    ReadLine([], [], "1", [o]);
    assert [] + [Text("1")] == [Text("1")] && [] + [[o]] == [[o]];
    var lines := [Text("1"), Text("0 x")];
    assert lines[..1] == [Text("1")];
  }

  /** Lines of spaces and tabs only give no grid. */
  lemma EmptyGridExample()
    ensures Parsed([Text(""), Text(" \t")]) == Err(EmptyGrid)
  {
    ReadChar("", ' ', []);
    assert "" + [' '] == " ";
    ReadChar(" ", '\t', []);
    assert " " + ['\t'] == " \t";
    ReadLine([], [], "", []);
    assert [] + [Text("")] == [Text("")];
    ReadLine([Text("")], [], " \t", []);
    assert [Text("")] + [Text(" \t")] == [Text(""), Text(" \t")];
  }

  /** The single row "0 0 0" fails validation with AdjacentCells: the run in the row is
      reported before the column checks, whose `height - 2` would underflow, are reached. */
  lemma SingleRowRunRejected()
    ensures var g := Grid([[Some(Zero), Some(Zero), Some(Zero)]], 3, 1);
      g.WellFormed() && ValidateDefined(g) && Validate(g) == Err(AdjacentCells)
  {
    var z := Some(Zero);
    var g := Grid([[z, z, z]], 3, 1);
    assert RunAt(Row(g, 0), 0);
    assert RunInRow(g);
  }

  /** A 2 x 2 grid whose first row is "0 0": the row has no window of three cells, so the
      balance check is reached and looks up the count of a symbol the row does not hold.
      The checker, completed so that a missing count is zero, reports the row as unbalanced. */
  lemma MissingCountExample()
    ensures var g := Grid([[Some(Zero), Some(Zero)], [Some(One), Some(One)]], 2, 2);
      g.WellFormed() && !ValidateDefined(g) && Validate(g) == Err(LaneUnbalanced)
  {
    var g := Grid([[Some(Zero), Some(Zero)], [Some(One), Some(One)]], 2, 2);
    assert !RunInRow(g);
    assert !RunInCol(g);
    assert Full(Row(g, 0)) && !Mixed(Row(g, 0));
    assert Count(Row(g, 0), Zero) == 2 by {
      assert Row(g, 0)[..1] == [Some(Zero)] && Row(g, 0)[..1][..0] == [];
    }
    assert Count(Row(g, 0), One) == 0 by {
      assert Row(g, 0)[..1] == [Some(Zero)] && Row(g, 0)[..1][..0] == [];
    }
    assert Unbalanced(Row(g, 0));
  }

  /** The single row "0 1": no run in the row, so the column checks compute `height - 2`
      with a height of one. The checker, completed so that a check with no window of three
      cells passes and a missing count is zero, reports the single-cell columns as
      unbalanced. */
  lemma ShortHeightExample()
    ensures var g := Grid([[Some(Zero), Some(One)]], 2, 1);
      g.WellFormed() && !ValidateDefined(g) && Validate(g) == Err(LaneUnbalanced)
  {
    var g := Grid([[Some(Zero), Some(One)]], 2, 1);
    assert !RunInRow(g);
    assert !RunInCol(g);
    assert Col(g, 0) == [Some(Zero)];
    assert Count(Col(g, 0), Zero) == 1 && Count(Col(g, 0), One) == 0 by {
      assert Col(g, 0)[..0] == [];
    }
    assert Unbalanced(Col(g, 0));
  }
}
