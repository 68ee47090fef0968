/** What the validity checker promises, proved about `Validate`. */
module CheckerLemmas {
  import opened Cells
  import opened Errors
  import opened Grids
  import opened Checker

  // ---------------------------------------------------------------------------
  // Counting
  // ---------------------------------------------------------------------------

  /** In a fully determined line every cell is counted once, as one symbol or the other. */
  lemma {:induction false} CountsCoverFullLine(line: Line)
    requires Full(line)
    ensures Count(line, Zero) + Count(line, One) == |line|
    decreases |line|
  {
    if line != [] {
      var init := line[..|line| - 1];
      assert Full(init) by {
        forall k | 0 <= k < |init| ensures init[k].Some? {
          assert init[k] == line[k];
        }
      }
      CountsCoverFullLine(init);
      var last := line[|line| - 1];
      assert last == Some(Zero) || last == Some(One) by {
        assert last.Some?;
        if last.value == Zero {} else {}
      }
      assert Count(line, Zero) == Count(init, Zero) + (if last == Some(Zero) then 1 else 0);
      assert Count(line, One) == Count(init, One) + (if last == Some(One) then 1 else 0);
    }
  }

  /** A balanced, fully determined line has even length, half of it zeros. */
  lemma BalancedLineEven(line: Line)
    requires Full(line) && !Unbalanced(line)
    ensures |line| == 2 * Count(line, Zero) && |line| % 2 == 0
  {
    CountsCoverFullLine(line);
  }

  // ---------------------------------------------------------------------------
  // When the count lookup of check_balance cannot panic
  // ---------------------------------------------------------------------------

  /** A fully determined line of at least three cells without a run holds both symbols. */
  lemma NoRunMeansMixed(line: Line)
    requires Full(line) && |line| >= 3 && !HasRun(line)
    ensures Mixed(line)
  {
    var x := line[0].value;
    if Some(Not(x)) !in line {
      forall k | 1 <= k <= 2 ensures line[k] == Some(x) {
        assert line[k] in line && line[k].Some?;
        assert line[k].value != Not(x);
      }
      assert RunAt(line, 0);
      assert false;
    }
    assert line[0] in line;
  }

  /** On a grid of at least three rows and three columns `is_valid` never panics: the
      dimensions leave no underflow, and a fully determined line that survives the run
      checks holds both symbols. */
  lemma ValidateDefinedWhenLarge(g: Grid)
    requires g.WellFormed() && g.width >= 3 && g.height >= 3
    ensures ValidateDefined(g)
  {
    if !RunInRow(g) && !RunInCol(g) {
      forall i | 0 <= i < g.height && Full(Row(g, i)) ensures Mixed(Row(g, i)) {
        NoRunMeansMixed(Row(g, i));
      }
      forall j | 0 <= j < g.width && Full(Col(g, j)) ensures Mixed(Col(g, j)) {
        NoRunMeansMixed(Col(g, j));
      }
    }
  }

  // ---------------------------------------------------------------------------
  // The verdict, stated on the cells
  // ---------------------------------------------------------------------------

  /** Cells (i, j), (i, j+1), (i, j+2) are present and equal. */
  predicate RowTripleAt(g: Grid, i: nat, j: nat)
    requires g.WellFormed()
  {
    i < g.height && j + 2 < g.width &&
    Triple(g.cells[i][j], g.cells[i][j + 1], g.cells[i][j + 2])
  }

  /** Cells (i, j), (i+1, j), (i+2, j) are present and equal. */
  predicate ColTripleAt(g: Grid, i: nat, j: nat)
    requires g.WellFormed()
  {
    i + 2 < g.height && j < g.width &&
    Triple(g.cells[i][j], g.cells[i + 1][j], g.cells[i + 2][j])
  }

  ghost predicate SomeTriple(g: Grid)
    requires g.WellFormed()
  {
    (exists i: nat, j: nat :: RowTripleAt(g, i, j)) || (exists i: nat, j: nat :: ColTripleAt(g, i, j))
  }

  lemma RunInRowIff(g: Grid)
    requires g.WellFormed()
    ensures RunInRow(g) <==> exists i: nat, j: nat :: RowTripleAt(g, i, j)
  {
    if RunInRow(g) {
      var i :| 0 <= i < g.height && HasRun(Row(g, i));
      var j: nat :| j < g.width && RunAt(Row(g, i), j);
      assert RowTripleAt(g, i, j);
    }
    if exists i: nat, j: nat :: RowTripleAt(g, i, j) {
      var i: nat, j: nat :| RowTripleAt(g, i, j);
      assert RunAt(Row(g, i), j);
    }
  }

  lemma RunInColIff(g: Grid)
    requires g.WellFormed()
    ensures RunInCol(g) <==> exists i: nat, j: nat :: ColTripleAt(g, i, j)
  {
    if RunInCol(g) {
      var j :| 0 <= j < g.width && HasRun(Col(g, j));
      var i: nat :| i < g.height && RunAt(Col(g, j), i);
      assert ColTripleAt(g, i, j);
    }
    if exists i: nat, j: nat :: ColTripleAt(g, i, j) {
      var i: nat, j: nat :| ColTripleAt(g, i, j);
      assert RunAt(Col(g, j), i);
    }
  }

  /** The verdict of `is_valid`, case by case: AdjacentCells exactly when some three
      consecutive cells of a row or a column are present and equal (an unknown cell never
      completes one); LaneUnbalanced exactly when there is no such triple and some fully
      determined row or column has unequal counts; SameLanes exactly when neither of those
      holds and two fully determined rows, or two fully determined columns, are equal; and
      success exactly when none of these holds. */
  lemma ValidateVerdict(g: Grid)
    requires g.WellFormed()
    ensures Validate(g) == Err(AdjacentCells) <==> SomeTriple(g)
    ensures Validate(g) == Err(LaneUnbalanced) <==>
      !SomeTriple(g) &&
      ((exists i :: 0 <= i < g.height && Full(Row(g, i)) && Count(Row(g, i), Zero) != Count(Row(g, i), One)) ||
       (exists j :: 0 <= j < g.width && Full(Col(g, j)) && Count(Col(g, j), Zero) != Count(Col(g, j), One)))
    ensures Validate(g) == Err(SameLanes) <==>
      !SomeTriple(g) && !UnbalancedRow(g) && !UnbalancedCol(g) &&
      ((exists i0, i1 :: 0 <= i0 < i1 < g.height && Full(Row(g, i0)) && Row(g, i0) == Row(g, i1)) ||
       (exists j0, j1 :: 0 <= j0 < j1 < g.width && Full(Col(g, j0)) && Col(g, j0) == Col(g, j1)))
    ensures Validate(g) == Ok(()) <==>
      !SomeTriple(g) && !UnbalancedRow(g) && !UnbalancedCol(g) && !EqualRows(g) && !EqualCols(g)
  {
    RunInRowIff(g);
    RunInColIff(g);
  }

  // ---------------------------------------------------------------------------
  // What a grid that solve accepts looks like
  // ---------------------------------------------------------------------------

  /** A filled grid that passes validation is a puzzle solution: no line has three equal
      consecutive symbols, every row and column holds as many zeros as ones (so width and
      height are even), and rows are pairwise different, as are columns. */
  lemma SolvedIsSolution(g: Grid)
    requires g.WellFormed() && IsFilled(g) && Validate(g) == Ok(())
    ensures forall i :: 0 <= i < g.height ==> !HasRun(Row(g, i)) && Count(Row(g, i), Zero) == Count(Row(g, i), One)
    ensures forall j :: 0 <= j < g.width ==> !HasRun(Col(g, j)) && Count(Col(g, j), Zero) == Count(Col(g, j), One)
    ensures g.width % 2 == 0 && g.height % 2 == 0
    ensures forall i0, i1 :: 0 <= i0 < i1 < g.height ==> Row(g, i0) != Row(g, i1)
    ensures forall j0, j1 :: 0 <= j0 < j1 < g.width ==> Col(g, j0) != Col(g, j1)
  {
    FilledIffLinesFull(g);
    BalancedLineEven(Row(g, 0));
    BalancedLineEven(Col(g, 0));
    forall i0, i1 | 0 <= i0 < i1 < g.height ensures Row(g, i0) != Row(g, i1) {
      assert !SameLane(Row(g, i0), Row(g, i1));
    }
    forall j0, j1 | 0 <= j0 < j1 < g.width ensures Col(g, j0) != Col(g, j1) {
      assert !SameLane(Col(g, j0), Col(g, j1));
    }
  }
}
