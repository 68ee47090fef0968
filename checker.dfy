/** `is_valid`, `check_cells`, `check_balance`, `check_lanes` and the implemented part of
    `solve` (src/grid.rs:65-164). */
module Checker {
  import opened Cells
  import opened Errors
  import opened Grids

  // ---------------------------------------------------------------------------
  // The rules, on one line
  // ---------------------------------------------------------------------------

  /** Three cells that are all present and equal. */
  predicate Triple(a: Option<Cell>, b: Option<Cell>, c: Option<Cell>) {
    a.Some? && a == b && b == c
  }

  /** The three cells of the line starting at `j` are present and equal. */
  predicate RunAt(line: Line, j: nat) {
    j + 2 < |line| && Triple(line[j], line[j + 1], line[j + 2])
  }

  /** Some three consecutive cells of the line are present and equal. */
  predicate HasRun(line: Line) {
    exists j: nat :: j < |line| && RunAt(line, j)
  }

  /** How many cells of the line hold `c`. */
  function Count(line: Line, c: Cell): nat
    decreases |line|
  {
    if line == [] then 0
    else Count(line[..|line| - 1], c) + (if line[|line| - 1] == Some(c) then 1 else 0)
  }

  /** A fully determined line whose two symbols are not equally many. */
  predicate Unbalanced(line: Line) {
    Full(line) && Count(line, Zero) != Count(line, One)
  }

  /** The line holds both symbols. */
  predicate Mixed(line: Line) {
    Some(Zero) in line && Some(One) in line
  }

  /** Two lines that are both fully determined and equal. */
  predicate SameLane(a: Line, b: Line) {
    Full(a) && a == b
  }

  // ---------------------------------------------------------------------------
  // The rules, on a grid, and the order in which violations are reported
  // ---------------------------------------------------------------------------

  predicate RunInRow(g: Grid)
    requires g.WellFormed()
  {
    exists i :: 0 <= i < g.height && HasRun(Row(g, i))
  }

  predicate RunInCol(g: Grid)
    requires g.WellFormed()
  {
    exists j :: 0 <= j < g.width && HasRun(Col(g, j))
  }

  predicate UnbalancedRow(g: Grid)
    requires g.WellFormed()
  {
    exists i :: 0 <= i < g.height && Unbalanced(Row(g, i))
  }

  predicate UnbalancedCol(g: Grid)
    requires g.WellFormed()
  {
    exists j :: 0 <= j < g.width && Unbalanced(Col(g, j))
  }

  predicate EqualRows(g: Grid)
    requires g.WellFormed()
  {
    exists i0, i1 :: 0 <= i0 < i1 < g.height && SameLane(Row(g, i0), Row(g, i1))
  }

  predicate EqualCols(g: Grid)
    requires g.WellFormed()
  {
    exists j0, j1 :: 0 <= j0 < j1 < g.width && SameLane(Col(g, j0), Col(g, j1))
  }

  /** The verdict `is_valid` reaches: the first failing family of checks, in the order row
      runs, column runs, row balance, column balance, equal rows, equal columns. */
  function Validate(g: Grid): (r: Result<()>)
    requires g.WellFormed()
    ensures r.Err? ==> r.error == AdjacentCells || r.error == LaneUnbalanced || r.error == SameLanes
  {
    if RunInRow(g) || RunInCol(g) then Err(AdjacentCells)
    else if UnbalancedRow(g) || UnbalancedCol(g) then Err(LaneUnbalanced)
    else if EqualRows(g) || EqualCols(g) then Err(SameLanes)
    else Ok(())
  }

  /** The grids on which `is_valid` returns instead of panicking. `width - 2` underflows
      when the width is 1; `height - 2` does so when the height is 1, which is reached only
      when no row has a run; and the count lookup of a fully determined line panics when the
      line lacks one of the symbols, which is reached only when no line has a run, for the
      columns only when every row is balanced. */
  predicate ValidateDefined(g: Grid)
    requires g.WellFormed()
  {
    g.width >= 2 &&
    (!RunInRow(g) ==> g.height >= 2) &&
    (!RunInRow(g) && !RunInCol(g) ==>
      (forall i :: 0 <= i < g.height && Full(Row(g, i)) ==> Mixed(Row(g, i))) &&
      (!UnbalancedRow(g) ==> forall j :: 0 <= j < g.width && Full(Col(g, j)) ==> Mixed(Col(g, j))))
  }

  // ---------------------------------------------------------------------------
  // Coordinate sequences the checks walk
  // ---------------------------------------------------------------------------

  type Window = (Pos, Pos, Pos)

  predicate WindowInBounds(g: Grid, w: Window) {
    g.InBounds(w.0) && g.InBounds(w.1) && g.InBounds(w.2)
  }

  predicate AllInBounds(g: Grid, idx: seq<Pos>) {
    forall k :: 0 <= k < |idx| ==> g.InBounds(idx[k])
  }

  predicate PairInBounds(g: Grid, p: (Pos, Pos)) {
    g.InBounds(p.0) && g.InBounds(p.1)
  }

  /** The windows of three consecutive cells of row `i`. */
  function RowWindows(g: Grid, i: nat): (ws: seq<Window>)
    requires g.WellFormed() && i < g.height && g.width >= 2
    ensures forall k :: 0 <= k < |ws| ==> WindowInBounds(g, ws[k])
  {
    seq(g.width - 2, j => ((i, j), (i, j + 1), (i, j + 2)))
  }

  /** The windows of three consecutive cells of column `j`. */
  function ColWindows(g: Grid, j: nat): (ws: seq<Window>)
    requires g.WellFormed() && j < g.width && g.height >= 2
    ensures forall k :: 0 <= k < |ws| ==> WindowInBounds(g, ws[k])
  {
    seq(g.height - 2, i => ((i, j), (i + 1, j), (i + 2, j)))
  }

  function RowIndices(g: Grid, i: nat): (idx: seq<Pos>)
    requires g.WellFormed() && i < g.height
    ensures AllInBounds(g, idx)
  {
    seq(g.width, j => (i, j))
  }

  function ColIndices(g: Grid, j: nat): (idx: seq<Pos>)
    requires g.WellFormed() && j < g.width
    ensures AllInBounds(g, idx)
  {
    seq(g.height, i => (i, j))
  }

  /** The cell pairs compared when rows `i0` and `i1` are compared. */
  function RowPairs(g: Grid, i0: nat, i1: nat): (ps: seq<(Pos, Pos)>)
    requires g.WellFormed() && i0 < g.height && i1 < g.height
    ensures forall k :: 0 <= k < |ps| ==> PairInBounds(g, ps[k])
  {
    seq(g.width, j => ((i0, j), (i1, j)))
  }

  /** The cell pairs compared when columns `j0` and `j1` are compared. */
  function ColPairs(g: Grid, j0: nat, j1: nat): (ps: seq<(Pos, Pos)>)
    requires g.WellFormed() && j0 < g.width && j1 < g.width
    ensures forall k :: 0 <= k < |ps| ==> PairInBounds(g, ps[k])
  {
    seq(g.height, i => ((i, j0), (i, j1)))
  }

  /** The line read through a sequence of coordinates. */
  function CellsAt(g: Grid, idx: seq<Pos>): (line: Line)
    requires g.WellFormed() && AllInBounds(g, idx)
    ensures |line| == |idx|
  {
    seq(|idx|, k requires 0 <= k < |idx| => Index(g, idx[k]))
  }

  predicate TripleAt(g: Grid, w: Window)
    requires g.WellFormed() && WindowInBounds(g, w)
  {
    Triple(Index(g, w.0), Index(g, w.1), Index(g, w.2))
  }

  predicate SameAt(g: Grid, p: (Pos, Pos))
    requires g.WellFormed() && PairInBounds(g, p)
  {
    Index(g, p.0).Some? && Index(g, p.0) == Index(g, p.1)
  }

  // ---------------------------------------------------------------------------
  // The three checks
  // ---------------------------------------------------------------------------

  /** Fails with AdjacentCells exactly when some window holds three present, equal cells. */
  method CheckCells(g: Grid, windows: seq<Window>) returns (r: Result<()>)
    requires g.WellFormed() && forall k :: 0 <= k < |windows| ==> WindowInBounds(g, windows[k])
    ensures r == if exists k :: 0 <= k < |windows| && TripleAt(g, windows[k])
                 then Err(AdjacentCells) else Ok(())
  {
    for k := 0 to |windows|
      invariant forall k' :: 0 <= k' < k ==> !TripleAt(g, windows[k'])
    {
      var (idx0, idx1, idx2) := windows[k];
      match (Index(g, idx0), Index(g, idx1), Index(g, idx2)) {
        case (Some(Zero), Some(Zero), Some(Zero)) | (Some(One), Some(One), Some(One)) =>
          return Err(AdjacentCells);
        case _ =>
      }
    }
    return Ok(());
  }

  /** The per-symbol counter of `check_balance`: a symbol has an entry once it has been
      seen, and the entry is the number of times it has been seen. */
  predicate Tally(balance: map<Cell, nat>, line: Line) {
    (Zero in balance <==> Count(line, Zero) > 0) &&
    (Zero in balance ==> balance[Zero] == Count(line, Zero)) &&
    (One in balance <==> Count(line, One) > 0) &&
    (One in balance ==> balance[One] == Count(line, One))
  }

  /** Fails with LaneUnbalanced exactly when the line is fully determined and its symbols are
      not equally many. The final lookup of both counts needs both symbols present when the
      line is fully determined. */
  method CheckBalance(g: Grid, idx: seq<Pos>) returns (r: Result<()>)
    requires g.WellFormed() && AllInBounds(g, idx)
    requires Full(CellsAt(g, idx)) ==> Mixed(CellsAt(g, idx))
    ensures r == if Unbalanced(CellsAt(g, idx)) then Err(LaneUnbalanced) else Ok(())
  {
    ghost var line := CellsAt(g, idx);
    var balance: map<Cell, nat> := map[];
    for k := 0 to |idx|
      invariant Full(line[..k]) && Tally(balance, line[..k])
    {
      var cell := Index(g, idx[k]);
      assert cell == line[k];
      match cell {
        case Some(x) =>
          assert line[..k + 1] == line[..k] + [cell];
          TallyStep(balance, line[..k], x);
          balance := balance[x := if x in balance then balance[x] + 1 else 1];
        case None =>
          assert !Full(line);
          return Ok(());
      }
    }
    assert line[..|idx|] == line;
    BalanceVerdict(balance, line);
    if balance[Zero] != balance[One] {
      return Err(LaneUnbalanced);
    }
    return Ok(());
  }

  /** Counting one more occurrence of `x` keeps the line fully determined and the counter in
      step with it. */
  lemma TallyStep(balance: map<Cell, nat>, prefix: Line, x: Cell)
    requires Full(prefix) && Tally(balance, prefix)
    ensures Full(prefix + [Some(x)])
    ensures Tally(balance[x := if x in balance then balance[x] + 1 else 1], prefix + [Some(x)])
  {
    var line := prefix + [Some(x)];
    assert line[..|line| - 1] == prefix;
  }

  /** Once a fully determined line holding both symbols is counted, both counts exist and
      differ exactly when the line is unbalanced. */
  lemma BalanceVerdict(balance: map<Cell, nat>, line: Line)
    requires Tally(balance, line) && Full(line) && Mixed(line)
    ensures Zero in balance && One in balance
    ensures balance[Zero] != balance[One] <==> Unbalanced(line)
  {
    CountPositive(line, Zero);
    CountPositive(line, One);
  }

  /** A symbol is counted at least once exactly when it occurs in the line. */
  lemma {:induction false} CountPositive(line: Line, c: Cell)
    ensures Count(line, c) > 0 <==> Some(c) in line
    decreases |line|
  {
    if line != [] {
      var init := line[..|line| - 1];
      assert line == init + [line[|line| - 1]];
      CountPositive(init, c);
    }
  }

  /** Fails with SameLanes exactly when every pair holds two present, equal cells. */
  method CheckLanes(g: Grid, pairs: seq<(Pos, Pos)>) returns (r: Result<()>)
    requires g.WellFormed() && forall k :: 0 <= k < |pairs| ==> PairInBounds(g, pairs[k])
    ensures r == if forall k :: 0 <= k < |pairs| ==> SameAt(g, pairs[k])
                 then Err(SameLanes) else Ok(())
  {
    for k := 0 to |pairs|
      invariant forall k' :: 0 <= k' < k ==> SameAt(g, pairs[k'])
    {
      var (idx0, idx1) := pairs[k];
      match (Index(g, idx0), Index(g, idx1)) {
        case (Some(Zero), Some(Zero)) | (Some(One), Some(One)) =>
        case _ =>
          return Ok(());
      }
    }
    return Err(SameLanes);
  }

  // ---------------------------------------------------------------------------
  // The coordinate sequences read the grid's rows and columns
  // ---------------------------------------------------------------------------

  lemma RowWindowsRun(g: Grid, i: nat)
    requires g.WellFormed() && i < g.height && g.width >= 2
    ensures (exists k :: 0 <= k < |RowWindows(g, i)| && TripleAt(g, RowWindows(g, i)[k]))
            <==> HasRun(Row(g, i))
  {
    var ws, line := RowWindows(g, i), Row(g, i);
    if HasRun(line) {
      var j: nat :| j < |line| && RunAt(line, j);
      RowWindowAt(g, i, j);
      assert 0 <= j < |ws| && TripleAt(g, ws[j]);
    } else {
      forall k | 0 <= k < |ws| ensures !TripleAt(g, ws[k]) {
        RowWindowAt(g, i, k);
      }
    }
  }

  /** Window `k` of row `i` is a run exactly when the row has a run at `k`. */
  lemma RowWindowAt(g: Grid, i: nat, k: nat)
    requires g.WellFormed() && i < g.height && g.width >= 2 && k < g.width - 2
    ensures TripleAt(g, RowWindows(g, i)[k]) <==> RunAt(Row(g, i), k)
  {
    assert RowWindows(g, i)[k] == ((i, k), (i, k + 1), (i, k + 2));
  }

  lemma ColWindowsRun(g: Grid, j: nat)
    requires g.WellFormed() && j < g.width && g.height >= 2
    ensures (exists k :: 0 <= k < |ColWindows(g, j)| && TripleAt(g, ColWindows(g, j)[k]))
            <==> HasRun(Col(g, j))
  {
    var ws, line := ColWindows(g, j), Col(g, j);
    if HasRun(line) {
      var i: nat :| i < |line| && RunAt(line, i);
      ColWindowAt(g, j, i);
      assert 0 <= i < |ws| && TripleAt(g, ws[i]);
    } else {
      forall k | 0 <= k < |ws| ensures !TripleAt(g, ws[k]) {
        ColWindowAt(g, j, k);
      }
    }
  }

  /** Window `k` of column `j` is a run exactly when the column has a run at `k`. */
  lemma ColWindowAt(g: Grid, j: nat, k: nat)
    requires g.WellFormed() && j < g.width && g.height >= 2 && k < g.height - 2
    ensures TripleAt(g, ColWindows(g, j)[k]) <==> RunAt(Col(g, j), k)
  {
    assert ColWindows(g, j)[k] == ((k, j), (k + 1, j), (k + 2, j));
  }

  lemma RowIndicesRead(g: Grid, i: nat)
    requires g.WellFormed() && i < g.height
    ensures CellsAt(g, RowIndices(g, i)) == Row(g, i)
  {
  }

  lemma ColIndicesRead(g: Grid, j: nat)
    requires g.WellFormed() && j < g.width
    ensures CellsAt(g, ColIndices(g, j)) == Col(g, j)
  {
  }

  lemma RowPairsSame(g: Grid, i0: nat, i1: nat)
    requires g.WellFormed() && i0 < g.height && i1 < g.height
    ensures (forall k :: 0 <= k < |RowPairs(g, i0, i1)| ==> SameAt(g, RowPairs(g, i0, i1)[k]))
            <==> SameLane(Row(g, i0), Row(g, i1))
  {
    var ps, a, b := RowPairs(g, i0, i1), Row(g, i0), Row(g, i1);
    if forall k :: 0 <= k < |ps| ==> SameAt(g, ps[k]) {
      forall k | 0 <= k < |a| ensures a[k].Some? && a[k] == b[k] {
        assert SameAt(g, ps[k]);
      }
    }
  }

  lemma ColPairsSame(g: Grid, j0: nat, j1: nat)
    requires g.WellFormed() && j0 < g.width && j1 < g.width
    ensures (forall k :: 0 <= k < |ColPairs(g, j0, j1)| ==> SameAt(g, ColPairs(g, j0, j1)[k]))
            <==> SameLane(Col(g, j0), Col(g, j1))
  {
    var ps, a, b := ColPairs(g, j0, j1), Col(g, j0), Col(g, j1);
    if forall k :: 0 <= k < |ps| ==> SameAt(g, ps[k]) {
      forall k | 0 <= k < |a| ensures a[k].Some? && a[k] == b[k] {
        assert SameAt(g, ps[k]);
      }
    }
  }

  // ---------------------------------------------------------------------------
  // The six statements of is_valid, each a loop over lines with early exit
  // ---------------------------------------------------------------------------

  /** No three equal determined cells in a row. */
  method CheckRowRuns(g: Grid) returns (r: Result<()>)
    requires g.WellFormed() && g.width >= 2
    ensures r == if RunInRow(g) then Err(AdjacentCells) else Ok(())
  {
    for i := 0 to g.height
      invariant forall i' :: 0 <= i' < i ==> !HasRun(Row(g, i'))
    {
      r := CheckCells(g, RowWindows(g, i));
      RowWindowsRun(g, i);
      if r.Err? {
        return;
      }
    }
    return Ok(());
  }

  /** No three equal determined cells in a column. */
  method CheckColRuns(g: Grid) returns (r: Result<()>)
    requires g.WellFormed() && g.height >= 2
    ensures r == if RunInCol(g) then Err(AdjacentCells) else Ok(())
  {
    for j := 0 to g.width
      invariant forall j' :: 0 <= j' < j ==> !HasRun(Col(g, j'))
    {
      r := CheckCells(g, ColWindows(g, j));
      ColWindowsRun(g, j);
      if r.Err? {
        return;
      }
    }
    return Ok(());
  }

  /** Fully determined rows are balanced. */
  method CheckRowBalance(g: Grid) returns (r: Result<()>)
    requires g.WellFormed()
    requires forall i :: 0 <= i < g.height && Full(Row(g, i)) ==> Mixed(Row(g, i))
    ensures r == if UnbalancedRow(g) then Err(LaneUnbalanced) else Ok(())
  {
    for i := 0 to g.height
      invariant forall i' :: 0 <= i' < i ==> !Unbalanced(Row(g, i'))
    {
      RowIndicesRead(g, i);
      r := CheckBalance(g, RowIndices(g, i));
      if r.Err? {
        return;
      }
    }
    return Ok(());
  }

  /** Fully determined columns are balanced. */
  method CheckColBalance(g: Grid) returns (r: Result<()>)
    requires g.WellFormed()
    requires forall j :: 0 <= j < g.width && Full(Col(g, j)) ==> Mixed(Col(g, j))
    ensures r == if UnbalancedCol(g) then Err(LaneUnbalanced) else Ok(())
  {
    for j := 0 to g.width
      invariant forall j' :: 0 <= j' < j ==> !Unbalanced(Col(g, j'))
    {
      ColIndicesRead(g, j);
      r := CheckBalance(g, ColIndices(g, j));
      if r.Err? {
        return;
      }
    }
    return Ok(());
  }

  /** No two fully determined rows are equal: every row is compared with every later row. */
  method CheckRowPairs(g: Grid) returns (r: Result<()>)
    requires g.WellFormed()
    ensures r == if EqualRows(g) then Err(SameLanes) else Ok(())
  {
    for i0 := 0 to g.height - 1
      invariant forall a, b :: 0 <= a < i0 && a < b < g.height ==> !SameLane(Row(g, a), Row(g, b))
    {
      for i1 := i0 + 1 to g.height
        invariant forall b :: i0 < b < i1 ==> !SameLane(Row(g, i0), Row(g, b))
      {
        r := CheckLanes(g, RowPairs(g, i0, i1));
        RowPairsSame(g, i0, i1);
        if r.Err? {
          return;
        }
      }
    }
    return Ok(());
  }

  /** No two fully determined columns are equal. */
  method CheckColPairs(g: Grid) returns (r: Result<()>)
    requires g.WellFormed()
    ensures r == if EqualCols(g) then Err(SameLanes) else Ok(())
  {
    for j0 := 0 to g.width - 1
      invariant forall a, b :: 0 <= a < j0 && a < b < g.width ==> !SameLane(Col(g, a), Col(g, b))
    {
      for j1 := j0 + 1 to g.width
        invariant forall b :: j0 < b < j1 ==> !SameLane(Col(g, j0), Col(g, b))
      {
        r := CheckLanes(g, ColPairs(g, j0, j1));
        ColPairsSame(g, j0, j1);
        if r.Err? {
          return;
        }
      }
    }
    return Ok(());
  }

  // ---------------------------------------------------------------------------
  // is_valid and solve
  // ---------------------------------------------------------------------------

  /** Runs the six families of checks in order and returns the first violation. */
  method IsValid(g: Grid) returns (r: Result<()>)
    requires g.WellFormed() && ValidateDefined(g)
    ensures r == Validate(g)
  {
    r := CheckRowRuns(g);
    if r.Err? {
      return;
    }
    r := CheckColRuns(g);
    if r.Err? {
      return;
    }
    r := CheckRowBalance(g);
    if r.Err? {
      return;
    }
    r := CheckColBalance(g);
    if r.Err? {
      return;
    }
    r := CheckRowPairs(g);
    if r.Err? {
      return;
    }
    r := CheckColPairs(g);
  }

  /** What `solve` can end with: success, a rule violation, or the search it does not have. */
  datatype Outcome = Solved | Failed(error: GridError) | Unimplemented

  /** Validates the grid; a valid filled grid is solved as it stands, and any other valid
      grid reaches the unimplemented search. */
  method Solve(g: Grid) returns (r: Outcome)
    requires g.WellFormed() && ValidateDefined(g)
    ensures Validate(g).Err? <==> r.Failed?
    ensures r.Failed? ==> r.error == Validate(g).error
    ensures r == Solved <==> Validate(g).Ok? && IsFilled(g)
    ensures r == Unimplemented <==> Validate(g).Ok? && !IsFilled(g)
  {
    var v := IsValid(g);
    if v.Err? {
      return Failed(v.error);
    }
    if IsFilled(g) {
      return Solved;
    } else {
      return Unimplemented;
    }
  }
}
