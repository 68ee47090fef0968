/** What `Grid::parse` promises, proved about the functions that describe it. */
module ParserLemmas {
  import opened Cells
  import opened Errors
  import opened Grids
  import opened Parser

  // ---------------------------------------------------------------------------
  // Reference definitions, read front to back
  // ---------------------------------------------------------------------------

  /** The cell an accepted non-space character stands for. */
  function Decoded(ch: char): Option<Cell> {
    if ch == '0' then Some(Zero) else if ch == '1' then Some(One) else None
  }

  /** The cells a line spells: one per character other than space and tab. */
  function Symbols(s: string): Line {
    if s == [] then []
    else (if IsSpace(s[0]) then [] else [Decoded(s[0])]) + Symbols(s[1..])
  }

  /** The rows of the non-blank lines, in order. */
  function NonBlankRows(texts: seq<string>): seq<Line> {
    if texts == [] then []
    else (if Blank(texts[0]) then [] else [Symbols(texts[0])]) + NonBlankRows(texts[1..])
  }

  predicate AllReadable(lines: seq<InputLine>) {
    forall n :: 0 <= n < |lines| ==> lines[n].Text?
  }

  function Texts(lines: seq<InputLine>): (texts: seq<string>)
    requires AllReadable(lines)
    ensures |texts| == |lines|
  {
    seq(|lines|, n requires 0 <= n < |lines| => lines[n].s)
  }

  predicate AllAllowed(texts: seq<string>) {
    forall n, k :: 0 <= n < |texts| && 0 <= k < |texts[n]| ==> Allowed(texts[n][k])
  }

  predicate Rectangular(rows: seq<Line>) {
    forall a, b :: 0 <= a < |rows| && 0 <= b < |rows| ==> |rows[a]| == |rows[b]|
  }

  /** `k` is the position of the first character of `s` that a grid line may not contain. */
  predicate FirstRefused(s: string, k: int) {
    0 <= k < |s| && !Allowed(s[k]) && forall m :: 0 <= m < k ==> Allowed(s[m])
  }

  // ---------------------------------------------------------------------------
  // Facts about the reference definitions
  // ---------------------------------------------------------------------------

  lemma {:induction false} SymbolsAppend(a: string, b: string)
    ensures Symbols(a + b) == Symbols(a) + Symbols(b)
    decreases |a|
  {
    if a == [] {
      assert a + b == b;
    } else {
      var c := a + b;
      assert c[0] == a[0] && c[1..] == a[1..] + b;
      SymbolsAppend(a[1..], b);
      var head := if IsSpace(a[0]) then [] else [Decoded(a[0])];
      assert Symbols(c) == head + Symbols(c[1..]);
      assert Symbols(a) == head + Symbols(a[1..]);
    }
  }

  /** A line yields no cell exactly when it is blank. */
  lemma {:induction false} BlankIffNoSymbols(s: string)
    ensures Blank(s) <==> Symbols(s) == []
    decreases |s|
  {
    if s != [] {
      BlankIffNoSymbols(s[1..]);
      if Blank(s) {
        assert Blank(s[1..]);
      } else if IsSpace(s[0]) {
        var k :| 0 <= k < |s| && !IsSpace(s[k]);
        assert !Blank(s[1..]) by { assert !IsSpace(s[1..][k - 1]); }
      }
    }
  }

  lemma {:induction false} NonBlankRowsAppend(a: seq<string>, b: seq<string>)
    ensures NonBlankRows(a + b) == NonBlankRows(a) + NonBlankRows(b)
    decreases |a|
  {
    if a == [] {
      assert a + b == b;
    } else {
      var c := a + b;
      assert c[0] == a[0] && c[1..] == a[1..] + b;
      NonBlankRowsAppend(a[1..], b);
      var head := if Blank(a[0]) then [] else [Symbols(a[0])];
      assert NonBlankRows(c) == head + NonBlankRows(c[1..]);
      assert NonBlankRows(a) == head + NonBlankRows(a[1..]);
    }
  }

  /** Every kept row holds at least one cell. */
  lemma {:induction false} NonBlankRowsNonEmpty(texts: seq<string>)
    ensures forall r :: r in NonBlankRows(texts) ==> r != []
    decreases |texts|
  {
    if texts != [] {
      NonBlankRowsNonEmpty(texts[1..]);
      BlankIffNoSymbols(texts[0]);
    }
  }

  // ---------------------------------------------------------------------------
  // One line
  // ---------------------------------------------------------------------------

  /** A line is accepted exactly when all its characters are allowed, and then its cells are
      its symbols in order; otherwise the error names the first refused character. */
  lemma {:induction false} LineCellsSpec(s: string)
    ensures LineCells(s).Ok? <==> forall k :: 0 <= k < |s| ==> Allowed(s[k])
    ensures LineCells(s).Ok? ==> LineCells(s).value == Symbols(s)
    ensures LineCells(s).Err? ==> exists k :: FirstRefused(s, k) && LineCells(s).error == InvalidChar(s[k])
    decreases |s|
  {
    if s != [] {
      var init, c := s[..|s| - 1], s[|s| - 1];
      assert s == init + [c];
      LineCellsSpec(init);
      SymbolsAppend(init, [c]);
      assert Symbols([c]) == if IsSpace(c) then [] else [Decoded(c)] by {
        assert [c][1..] == [];
      }
      match LineCells(init)
      case Err(e) =>
        var k :| FirstRefused(init, k) && e == InvalidChar(init[k]);
        assert FirstRefused(s, k);
      case Ok(vec) =>
        if !Allowed(c) {
          assert FirstRefused(s, |s| - 1);
        }
    }
  }

  // ---------------------------------------------------------------------------
  // All lines
  // ---------------------------------------------------------------------------

  /** Collecting rows succeeds exactly when every line is readable, every character allowed
      and the non-blank lines are all of one length; the rows are then the non-blank lines'
      cells in order. A width mismatch names two different, non-zero lengths. */
  lemma KeptRowsSpec(lines: seq<InputLine>)
    ensures KeptRows(lines).Ok? <==>
      AllReadable(lines) && AllAllowed(Texts(lines)) && Rectangular(NonBlankRows(Texts(lines)))
    ensures KeptRows(lines).Ok? ==> KeptRows(lines).value == NonBlankRows(Texts(lines))
    ensures KeptRows(lines).Err? ==> KeptRows(lines).error != EmptyGrid
    ensures KeptRows(lines).Err? && KeptRows(lines).error.WidthMismatch? ==>
      KeptRows(lines).error.expected != KeptRows(lines).error.found &&
      KeptRows(lines).error.expected >= 1 && KeptRows(lines).error.found >= 1
  {
    KeptRowsAccepts(lines);
    KeptRowsErrors(lines);
  }

  /** The success half of KeptRowsSpec. */
  lemma {:induction false} KeptRowsAccepts(lines: seq<InputLine>)
    ensures KeptRows(lines).Ok? <==>
      AllReadable(lines) && AllAllowed(Texts(lines)) && Rectangular(NonBlankRows(Texts(lines)))
    ensures KeptRows(lines).Ok? ==> KeptRows(lines).value == NonBlankRows(Texts(lines))
    decreases |lines|
  {
    if lines == [] {
      assert AllReadable(lines) && Texts(lines) == [];
    } else {
      var init, last := lines[..|lines| - 1], lines[|lines| - 1];
      assert lines == init + [last];
      KeptRowsAccepts(init);
      if !AllReadable(init) {
        assert !AllReadable(lines) by {
          var n :| 0 <= n < |init| && !init[n].Text?;
          assert lines[n] == init[n];
        }
      } else if last.Unreadable? {
        assert !AllReadable(lines);
      } else {
        TextStep(init, last.s);
      }
    }
  }

  /** One more readable line: the three conditions and the kept rows, one line on. */
  lemma TextStep(init: seq<InputLine>, s: string)
    requires AllReadable(init)
    requires KeptRows(init).Ok? <==>
      AllAllowed(Texts(init)) && Rectangular(NonBlankRows(Texts(init)))
    requires KeptRows(init).Ok? ==> KeptRows(init).value == NonBlankRows(Texts(init))
    ensures var lines := init + [Text(s)];
      AllReadable(lines) &&
      (KeptRows(lines).Ok? <==> AllAllowed(Texts(lines)) && Rectangular(NonBlankRows(Texts(lines)))) &&
      (KeptRows(lines).Ok? ==> KeptRows(lines).value == NonBlankRows(Texts(lines)))
  {
    var lines := init + [Text(s)];
    assert lines[..|lines| - 1] == init;
    ReadableTexts(init, s);
    PrefixConditions(Texts(init), s);
    LineCellsSpec(s);
    BlankIffNoSymbols(s);
    match KeptRows(init)
    case Err(e) =>
    case Ok(cells) =>
      match LineCells(s)
      case Err(e) =>
        var k :| FirstRefused(s, k) && e == InvalidChar(s[k]);
      case Ok(vec) =>
        if vec != [] && cells != [] && |vec| != |cells[|cells| - 1]| {
          var rows := cells + [vec];
          assert |rows[|cells| - 1]| != |rows[|cells|]|;
        }
  }

  /** The texts and the kept rows of one more readable line. */
  lemma ReadableTexts(init: seq<InputLine>, s: string)
    requires AllReadable(init)
    ensures var lines := init + [Text(s)];
      AllReadable(lines) && Texts(lines) == Texts(init) + [s] &&
      NonBlankRows(Texts(lines)) == NonBlankRows(Texts(init)) + (if Blank(s) then [] else [Symbols(s)])
  {
    var lines := init + [Text(s)];
    assert Texts(lines) == Texts(init) + [s];
    NonBlankRowsAppend(Texts(init), [s]);
    assert [s][1..] == [];
  }

  /** The error half of KeptRowsSpec: kept rows are never empty, so a width mismatch names
      two non-zero lengths, and collecting rows never reports an empty grid. */
  lemma {:induction false} KeptRowsErrors(lines: seq<InputLine>)
    ensures KeptRows(lines).Ok? ==> forall r :: r in KeptRows(lines).value ==> r != []
    ensures KeptRows(lines).Err? ==> KeptRows(lines).error != EmptyGrid
    ensures KeptRows(lines).Err? && KeptRows(lines).error.WidthMismatch? ==>
      KeptRows(lines).error.expected != KeptRows(lines).error.found &&
      KeptRows(lines).error.expected >= 1 && KeptRows(lines).error.found >= 1
    decreases |lines|
  {
    if lines != [] {
      var init, last := lines[..|lines| - 1], lines[|lines| - 1];
      KeptRowsErrors(init);
      if KeptRows(init).Ok? && last.Text? {
        var cells := KeptRows(init).value;
        LineCellsSpec(last.s);
        if cells != [] {
          assert cells[|cells| - 1] in cells;
        }
      }
    }
  }

  /** How the three conditions of KeptRowsSpec split over a last line. */
  lemma PrefixConditions(texts: seq<string>, s: string)
    ensures AllAllowed(texts + [s]) <==>
      AllAllowed(texts) && forall k :: 0 <= k < |s| ==> Allowed(s[k])
    ensures Rectangular(NonBlankRows(texts) + (if Blank(s) then [] else [Symbols(s)])) ==>
      Rectangular(NonBlankRows(texts))
    ensures Blank(s) ==> NonBlankRows(texts) + (if Blank(s) then [] else [Symbols(s)]) == NonBlankRows(texts)
    ensures var rows := NonBlankRows(texts);
      !Blank(s) && Rectangular(rows) && (rows != [] ==> |Symbols(s)| == |rows[|rows| - 1]|) ==>
      Rectangular(rows + [Symbols(s)])
  {
    AllowedStep(texts, s);
    RectangularStep(NonBlankRows(texts), if Blank(s) then [] else [Symbols(s)]);
  }

  /** All characters of the texts and one more are allowed exactly when those of the texts
      and those of the last one are. */
  lemma AllowedStep(texts: seq<string>, s: string)
    ensures AllAllowed(texts + [s]) <==>
      AllAllowed(texts) && forall k :: 0 <= k < |s| ==> Allowed(s[k])
  {
    var t := texts + [s];
    if AllAllowed(texts) && forall k :: 0 <= k < |s| ==> Allowed(s[k]) {
      forall n, k | 0 <= n < |t| && 0 <= k < |t[n]| ensures Allowed(t[n][k]) {
        if n < |texts| { assert t[n] == texts[n]; }
      }
    }
    if AllAllowed(t) {
      forall n, k | 0 <= n < |texts| && 0 <= k < |texts[n]| ensures Allowed(texts[n][k]) {
        assert t[n] == texts[n];
      }
      assert t[|texts|] == s;
    }
  }

  /** Rows plus at most one more are rectangular exactly when the rows are and the new row,
      if any, is as long as the last of them. */
  lemma RectangularStep(rows: seq<Line>, more: seq<Line>)
    requires |more| <= 1
    ensures Rectangular(rows + more) ==> Rectangular(rows)
    ensures more == [] ==> rows + more == rows
    ensures more != [] && Rectangular(rows) && (rows != [] ==> |more[0]| == |rows[|rows| - 1]|) ==>
      Rectangular(rows + more)
  {
    var ext := rows + more;
    if Rectangular(ext) {
      forall a, b | 0 <= a < |rows| && 0 <= b < |rows| ensures |rows[a]| == |rows[b]| {
        assert ext[a] == rows[a] && ext[b] == rows[b];
      }
    }
    if more == [] {
      assert ext == rows;
    } else if Rectangular(rows) && (rows != [] ==> |more[0]| == |rows[|rows| - 1]|) {
      forall a, b | 0 <= a < |ext| && 0 <= b < |ext| ensures |ext[a]| == |ext[b]| {
        if rows != [] {
          assert |ext[a]| == |rows[|rows| - 1]| by {
            if a < |rows| { assert ext[a] == rows[a]; } else { assert ext[a] == more[0]; }
          }
          assert |ext[b]| == |rows[|rows| - 1]| by {
            if b < |rows| { assert ext[b] == rows[b]; } else { assert ext[b] == more[0]; }
          }
        }
      }
    }
  }

  /** Parsing succeeds exactly when every line is readable, every character allowed and the
      non-blank lines are at least one and all of one length. The grid then has one row per
      non-blank line, holding that line's cells in order, and is well formed. With nothing
      wrong but no non-blank line, the error is EmptyGrid. */
  lemma ParsedSpec(lines: seq<InputLine>)
    ensures Parsed(lines).Ok? <==>
      AllReadable(lines) && AllAllowed(Texts(lines)) &&
      NonBlankRows(Texts(lines)) != [] && Rectangular(NonBlankRows(Texts(lines)))
    ensures Parsed(lines).Ok? ==>
      var g := Parsed(lines).value;
      g.WellFormed() && g.cells == NonBlankRows(Texts(lines)) && g.height == |g.cells| &&
      g.width == |g.cells[0]|
    ensures Parsed(lines) == Err(EmptyGrid) <==>
      AllReadable(lines) && AllAllowed(Texts(lines)) && NonBlankRows(Texts(lines)) == []
  {
    KeptRowsSpec(lines);
    if KeptRows(lines).Ok? {
      var rows := KeptRows(lines).value;
      NonBlankRowsNonEmpty(Texts(lines));
      if rows != [] {
        assert rows[0] in rows;
        var g := Parsed(lines).value;
        forall i | 0 <= i < g.height ensures |g.cells[i]| == g.width {
          assert |rows[i]| == |rows[0]|;
        }
      }
    }
  }

  // ---------------------------------------------------------------------------
  // Which error a failing parse reports
  // ---------------------------------------------------------------------------

  /** The first `n` lines are readable, hold only allowed characters and their non-blank
      lines are all of one length: nothing has gone wrong before line `n`. */
  predicate CleanPrefix(lines: seq<InputLine>, n: nat)
    requires n <= |lines|
  {
    AllReadable(lines[..n]) && AllAllowed(Texts(lines[..n])) &&
    Rectangular(NonBlankRows(Texts(lines[..n])))
  }

  /** When the first `n` lines are clean, line `n` alone decides what is read next. */
  lemma CleanStep(lines: seq<InputLine>, n: nat)
    requires n < |lines| && CleanPrefix(lines, n)
    ensures KeptRows(lines[..n]) == Ok(NonBlankRows(Texts(lines[..n])))
    ensures var rows := NonBlankRows(Texts(lines[..n]));
      KeptRows(lines[..n + 1]) ==
        match lines[n]
        case Unreadable(cause) => Err(Io(cause))
        case Text(s) =>
          match LineCells(s)
          case Err(e) => Err(e)
          case Ok(vec) =>
            if vec == [] then Ok(rows)
            else if rows != [] && |vec| != |rows[|rows| - 1]| then
              Err(WidthMismatch(|rows[|rows| - 1]|, |vec|))
            else Ok(rows + [vec])
  {
    KeptRowsSpec(lines[..n]);
    assert lines[..n + 1][..n] == lines[..n];
  }

  /** The first unreadable line after a clean prefix ends parsing with its read error. */
  lemma FirstUnreadable(lines: seq<InputLine>, n: nat)
    requires n < |lines| && CleanPrefix(lines, n) && lines[n].Unreadable?
    ensures Parsed(lines) == Err(Io(lines[n].cause))
  {
    CleanStep(lines, n);
    KeptRowsErrSticky(lines, n + 1);
  }

  /** The first line with a refused character, after a clean prefix, ends parsing with
      InvalidChar of its first refused character. */
  lemma FirstInvalidChar(lines: seq<InputLine>, n: nat, k: nat)
    requires n < |lines| && CleanPrefix(lines, n) && lines[n].Text?
    requires FirstRefused(lines[n].s, k)
    ensures Parsed(lines) == Err(InvalidChar(lines[n].s[k]))
  {
    var s := lines[n].s;
    CleanStep(lines, n);
    LineCellsSpec(s);
    var k' :| FirstRefused(s, k') && LineCells(s).error == InvalidChar(s[k']);
    assert k' == k;
    KeptRowsErrSticky(lines, n + 1);
  }

  /** The first non-blank line whose length differs from the rows kept so far, after a
      clean prefix, ends parsing with WidthMismatch of the kept width and its own length. */
  lemma FirstWidthMismatch(lines: seq<InputLine>, n: nat)
    requires n < |lines| && CleanPrefix(lines, n) && lines[n].Text?
    requires forall k :: 0 <= k < |lines[n].s| ==> Allowed(lines[n].s[k])
    requires var rows := NonBlankRows(Texts(lines[..n]));
      !Blank(lines[n].s) && rows != [] && |Symbols(lines[n].s)| != |rows[0]|
    ensures var rows := NonBlankRows(Texts(lines[..n]));
      Parsed(lines) == Err(WidthMismatch(|rows[0]|, |Symbols(lines[n].s)|))
  {
    var s := lines[n].s;
    var rows := NonBlankRows(Texts(lines[..n]));
    CleanStep(lines, n);
    LineCellsSpec(s);
    BlankIffNoSymbols(s);
    assert |rows[|rows| - 1]| == |rows[0]|;
    KeptRowsErrSticky(lines, n + 1);
  }
}
