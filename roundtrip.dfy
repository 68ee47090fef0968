/** Rendering a grid and parsing its lines gives the grid back. */
module RoundTrip {
  import opened Cells
  import opened Errors
  import opened Grids
  import opened Parser
  import opened ParserLemmas
  import opened Render

  /** The line source the program feeds `parse` with (src/main.rs:15-18), reduced to
      cutting a text at every newline. */
  function SplitLines(s: string): (ls: seq<string>)
    ensures |ls| >= 1
    decreases |s|
  {
    if s == [] then [""]
    else
      var init := SplitLines(s[..|s| - 1]);
      if s[|s| - 1] == '\n' then init + [""]
      else init[..|init| - 1] + [init[|init| - 1] + [s[|s| - 1]]]
  }

  /** Each text as a successfully read line. */
  function AsInput(texts: seq<string>): (lines: seq<InputLine>)
    ensures |lines| == |texts|
  {
    seq(|texts|, n requires 0 <= n < |texts| => Text(texts[n]))
  }

  /** The rendered text of each row. */
  function RowTexts(g: Grid): (texts: seq<string>)
    requires g.WellFormed()
    ensures |texts| == g.height
  {
    seq(g.height, i requires 0 <= i < g.height => RowText(g.cells[i], g.width))
  }

  /** A cell's glyph is an allowed, non-space character that decodes back to the cell. */
  lemma GlyphDecodes(v: Option<Cell>)
    ensures Allowed(Glyph(v)) && !IsSpace(Glyph(v)) && Glyph(v) != '\n'
    ensures Decoded(Glyph(v)) == v
  {
  }

  /** The text of a row's first `j` cells has only allowed characters and no newline. */
  lemma {:induction false} RowTextChars(row: Line, j: nat)
    requires j <= |row|
    ensures forall k :: 0 <= k < |RowText(row, j)| ==> Allowed(RowText(row, j)[k]) && RowText(row, j)[k] != '\n'
    decreases j
  {
    if j > 0 {
      RowTextChars(row, j - 1);
      GlyphDecodes(row[j - 1]);
    }
  }

  /** A glyph spells its cell; a separator spells nothing. */
  lemma GlyphSpells(v: Option<Cell>, sep: string)
    requires sep == " " || sep == ""
    ensures Symbols([Glyph(v)]) == [v]
    ensures Symbols(sep) == []
  {
    GlyphDecodes(v);
    assert [Glyph(v)][1..] == [];
    if sep != [] {
      assert sep[1..] == [];
    }
  }

  /** The text of a row's first `j` cells spells exactly those cells. */
  lemma {:induction false} RowTextSpells(row: Line, j: nat)
    requires j <= |row|
    ensures Symbols(RowText(row, j)) == row[..j]
    decreases j
  {
    if j > 0 {
      RowTextSpells(row, j - 1);
      var prev, glyph := RowText(row, j - 1), [Glyph(row[j - 1])];
      var sep: string := if j < |row| then " " else "";
      assert RowText(row, j) == prev + glyph + sep;
      GlyphSpells(row[j - 1], sep);
      SymbolsAppend(prev, glyph);
      SymbolsAppend(prev + glyph, sep);
      assert Symbols(prev + glyph + sep) == row[..j - 1] + [row[j - 1]] + [];
      assert row[..j] == row[..j - 1] + [row[j - 1]];
    }
  }

  /** A last character other than a newline extends the last line. */
  lemma SplitChar(a: string, c: char)
    requires c != '\n'
    ensures var ls := SplitLines(a);
      SplitLines(a + [c]) == ls[..|ls| - 1] + [ls[|ls| - 1] + [c]]
  {
    var t := a + [c];
    assert t[..|t| - 1] == a;
  }

  /** Appending text without a newline extends the last line. */
  lemma {:induction false} SplitExtendsLast(a: string, b: string)
    requires '\n' !in b
    ensures var ls := SplitLines(a);
      SplitLines(a + b) == ls[..|ls| - 1] + [ls[|ls| - 1] + b]
    decreases |b|
  {
    var ls := SplitLines(a);
    if b == [] {
      assert a + b == a;
      ExtendLast(ls, [], []);
    } else {
      var b', c := b[..|b| - 1], b[|b| - 1];
      assert b == b' + [c];
      assert a + b == (a + b') + [c];
      SplitExtendsLast(a, b');
      SplitChar(a + b', c);
      ExtendLast(ls, b', [c]);
    }
  }

  /** Extending the last line of `ls` by `x` and then by `y` extends it by `x + y`. */
  lemma ExtendLast(ls: seq<string>, x: string, y: string)
    requires |ls| >= 1
    ensures var init := ls[..|ls| - 1] + [ls[|ls| - 1] + x];
      init[..|init| - 1] + [init[|init| - 1] + y] == ls[..|ls| - 1] + [ls[|ls| - 1] + (x + y)]
    ensures ls[..|ls| - 1] + [ls[|ls| - 1] + []] == ls
  {
    var init := ls[..|ls| - 1] + [ls[|ls| - 1] + x];
    assert init[..|init| - 1] == ls[..|ls| - 1];
    assert ls[|ls| - 1] + x + y == ls[|ls| - 1] + (x + y);
    assert ls[|ls| - 1] + [] == ls[|ls| - 1];
  }

  /** A newline starts a new, empty line. */
  lemma SplitNewline(a: string)
    ensures SplitLines(a + "\n") == SplitLines(a) + [""]
  {
    var t := a + "\n";
    assert t[..|t| - 1] == a;
  }

  /** Writing a line without a newline into an empty last line fills it; a newline after
      it opens the next one. */
  lemma CompleteLine(before: string, row: string, done: seq<string>)
    requires SplitLines(before) == done + [""]
    requires '\n' !in row
    ensures SplitLines(before + row) == done + [row]
    ensures SplitLines(before + row + "\n") == done + [row] + [""]
  {
    SplitExtendsLast(before, row);
    var ls := SplitLines(before);
    assert ls[..|ls| - 1] == done;
    assert ls[|ls| - 1] + row == row;
    SplitNewline(before + row);
  }

  /** The lines of the text of the first `i` rows: the rows' texts, followed by an empty
      line still being written when more rows are to come. */
  lemma {:induction false} SplitGridText(g: Grid, i: nat)
    requires g.WellFormed() && i <= g.height
    ensures SplitLines(GridText(g, i)) == RowTexts(g)[..i] + (if i < g.height then [""] else [])
    decreases i
  {
    if i > 0 {
      SplitGridText(g, i - 1);
      var texts := RowTexts(g);
      RowTextChars(g.cells[i - 1], g.width);
      assert texts[i - 1] == RowText(g.cells[i - 1], g.width);
      assert texts[..i] == texts[..i - 1] + [texts[i - 1]];
      GridTextStep(g, i);
      SplitRowStep(GridText(g, i - 1), texts[i - 1], texts[..i - 1], i < g.height);
    }
  }

  /** Writing a row, and a newline unless it is the last, after text whose last line is
      empty. */
  lemma SplitRowStep(before: string, row: string, done: seq<string>, more: bool)
    requires SplitLines(before) == done + [""]
    requires '\n' !in row
    ensures SplitLines(before + row + (if more then "\n" else "")) ==
      done + [row] + (if more then [""] else [])
  {
    CompleteLine(before, row, done);
    if !more {
      assert before + row + "" == before + row;
      assert done + [row] + [] == done + [row];
    }
  }

  /** The text of `i` rows is the text of `i - 1` rows, the row's text and, unless it is
      the last row, a newline. */
  lemma GridTextStep(g: Grid, i: nat)
    requires g.WellFormed() && 0 < i <= g.height
    ensures GridText(g, i) == GridText(g, i - 1) + RowTexts(g)[i - 1] + (if i < g.height then "\n" else "")
  {
    assert RowTexts(g)[i - 1] == RowText(g.cells[i - 1], g.width);
  }

  /** Cutting a rendered grid at its newlines gives one line per row. */
  lemma SplitRendered(g: Grid)
    requires g.WellFormed()
    ensures SplitLines(Rendered(g)) == RowTexts(g)
  {
    SplitGridText(g, g.height);
  }

  /** When no text is blank, every text gives a row. */
  lemma {:induction false} NonBlankRowsAllKept(texts: seq<string>)
    requires forall n :: 0 <= n < |texts| ==> !Blank(texts[n])
    ensures NonBlankRows(texts) == seq(|texts|, n requires 0 <= n < |texts| => Symbols(texts[n]))
    decreases |texts|
  {
    if texts != [] {
      NonBlankRowsAllKept(texts[1..]);
    }
  }

  /** Parsing the rows' texts of a well-formed grid gives that grid. */
  lemma ParseRowTexts(g: Grid)
    requires g.WellFormed()
    ensures Parsed(AsInput(RowTexts(g))) == Ok(g)
  {
    var texts := RowTexts(g);
    var lines := AsInput(texts);
    assert AllReadable(lines);
    assert Texts(lines) == texts;
    forall n | 0 <= n < g.height
      ensures Symbols(texts[n]) == g.cells[n] && !Blank(texts[n])
      ensures forall k :: 0 <= k < |texts[n]| ==> Allowed(texts[n][k])
    {
      RowTextSpells(g.cells[n], g.width);
      RowTextChars(g.cells[n], g.width);
      assert g.cells[n][..g.width] == g.cells[n];
      BlankIffNoSymbols(texts[n]);
    }
    NonBlankRowsAllKept(texts);
    assert NonBlankRows(texts) == g.cells;
    ParsedSpec(lines);
  }

  /** Rendering a well-formed grid, cutting the text into lines and parsing them gives the
      same cells, width and height. */
  lemma RenderParse(g: Grid)
    requires g.WellFormed()
    ensures Parsed(AsInput(SplitLines(Rendered(g)))) == Ok(g)
  {
    SplitRendered(g);
    ParseRowTexts(g);
  }

  /** A grid that parsing produced survives rendering and parsing again. */
  lemma ParseRenderParse(lines: seq<InputLine>)
    requires Parsed(lines).Ok?
    ensures var g := Parsed(lines).value;
      g.WellFormed() && Parsed(AsInput(SplitLines(Rendered(g)))) == Ok(g)
  {
    ParsedSpec(lines);
    RenderParse(Parsed(lines).value);
  }
}
