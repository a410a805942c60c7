/**
 Styled lines of finished history, and what writing one at the bottom of a scroll
 region does to the screen.
 */
module HistoryLines {
  import opened Wrappers
  import opened Sequences
  import opened Cells
  import opened Screen
  import opened DiffRenderer
  import opened Tty
  import opened DrawUpdates

  /** A span's colours give way to the line's; modifier is the combined one. */
  datatype Span = Span(symbols: seq<Symbol>, fg: Option<Color>, bg: Option<Color>, modifier: Modifier)

  datatype HistoryLine = HistoryLine(fg: Option<Color>, bg: Option<Color>, spans: seq<Span>)

  function ColorOf(first: Option<Color>, second: Option<Color>): Color {
    if first.Some? then first.value else if second.Some? then second.value else Reset
  }

  // ------------------------------------------------------------------ what is sent

  function SpanOps(line: HistoryLine, span: Span, p: Palette): seq<Op> {
    AttrOps(ModifierChanges(PLAIN, span.modifier))
    + [SetFg(p.fg(ColorOf(line.fg, span.fg))), SetBg(p.bg(ColorOf(line.bg, span.bg)))]
    + Prints(span.symbols)
    + AttrOps(ModifierChanges(span.modifier, PLAIN))
  }

  function SpansOps(line: HistoryLine, spans: seq<Span>, p: Palette): seq<Op> {
    if spans == [] then [] else SpanOps(line, spans[0], p) + SpansOps(line, spans[1..], p)
  }

  function LineOps(line: HistoryLine, p: Palette): seq<Op> {
    [SetFg(p.fg(ColorOf(line.fg, None))), SetBg(p.bg(ColorOf(line.bg, None)))] + SpansOps(line, line.spans, p) + FINISH
  }

  lemma {:induction false} SpansOpsConcat(line: HistoryLine, a: seq<Span>, b: seq<Span>, p: Palette)
    ensures SpansOps(line, a + b, p) == SpansOps(line, a, p) + SpansOps(line, b, p)
  {
    hide SpanOps;
    if a == [] {
      assert a + b == b;
    } else {
      assert (a + b)[1..] == a[1..] + b;
      SpansOpsConcat(line, a[1..], b, p);
      Associative(SpanOps(line, a[0], p), SpansOps(line, a[1..], p), SpansOps(line, b, p));
    }
  }

  /** `write_history_line`. */
  method WriteHistoryLine(line: HistoryLine, p: Palette) returns (ops: seq<Op>)
    ensures ops == LineOps(line, p)
  {
    hide SpansOps, SpanOps, AttrOps, ModifierChanges;
    var start := [SetFg(p.fg(ColorOf(line.fg, None))), SetBg(p.bg(ColorOf(line.bg, None)))];
    ops := start;
    assert line.spans[..0] == [];
    NoSpans(line, p);
    for i := 0 to |line.spans|
      invariant ops == start + SpansOps(line, line.spans[..i], p)
    {
      var more := WriteSpan(line, line.spans[i], p);
      assert line.spans[..i + 1] == line.spans[..i] + [line.spans[i]];
      SpansOpsConcat(line, line.spans[..i], [line.spans[i]], p);
      OneSpan(line, line.spans[i], p);
      Associative(start, SpansOps(line, line.spans[..i], p), more);
      ops := ops + more;
    }
    assert line.spans[..|line.spans|] == line.spans;
    ops := ops + FINISH;
  }

  method WriteSpan(line: HistoryLine, span: Span, p: Palette) returns (ops: seq<Op>)
    ensures ops == SpanOps(line, span, p)
  {
    ops := AttrOps(ModifierChanges(PLAIN, span.modifier));
    ops := ops + [SetFg(p.fg(ColorOf(line.fg, span.fg))), SetBg(p.bg(ColorOf(line.bg, span.bg)))];
    ops := ops + Prints(span.symbols);
    ops := ops + AttrOps(ModifierChanges(span.modifier, PLAIN));
  }

  lemma NoSpans(line: HistoryLine, p: Palette)
    ensures SpansOps(line, [], p) == []
  {
  }

  lemma OneSpan(line: HistoryLine, span: Span, p: Palette)
    ensures SpansOps(line, [span], p) == SpanOps(line, span, p)
  {
    assert [span][1..] == [];
    assert SpanOps(line, span, p) + [] == SpanOps(line, span, p);
  }

  // -------------------------------------------------------------- what it looks like

  function SpanCells(line: HistoryLine, span: Span, p: Palette): (cells: seq<Cell>)
    ensures |cells| == |span.symbols|
  {
    seq(|span.symbols|, i requires 0 <= i < |span.symbols| =>
      Cell(span.symbols[i], p.fg(ColorOf(line.fg, span.fg)), p.bg(ColorOf(line.bg, span.bg)), Emitted(span.modifier)))
  }

  function SpansCells(line: HistoryLine, spans: seq<Span>, p: Palette): seq<Cell> {
    if spans == [] then [] else SpanCells(line, spans[0], p) + SpansCells(line, spans[1..], p)
  }

  function CellsWidth(cells: seq<Cell>): nat {
    if cells == [] then 0 else Width(cells[0].symbol) + CellsWidth(cells[1..])
  }

  /** Cells printed one after the other from column x on. */
  function Printed(row: Line, x: nat, cells: seq<Cell>): (r: Line)
    requires x + CellsWidth(cells) <= |row|
    ensures |r| == |row|
    decreases |cells|
  {
    if cells == [] then row
    else Printed(Overwrite(row, x, cells[0]), x + Width(cells[0].symbol), cells[1..])
  }

  predicate FitsWidth(line: HistoryLine, padding: nat, width: nat, p: Palette) {
    padding + CellsWidth(SpansCells(line, line.spans, p)) <= width
  }

  /** The finished screen line. */
  function LineImage(line: HistoryLine, padding: nat, width: nat, p: Palette): (r: Line)
    requires FitsWidth(line, padding, width, p)
    ensures |r| == width
  {
    Printed(BlankLine(width, Reset), padding, SpansCells(line, line.spans, p))
  }

  function SymbolCount(spans: seq<Span>): nat {
    if spans == [] then 0 else |spans[0].symbols| + SymbolCount(spans[1..])
  }

  /** Symbol j of span k comes behind the symbols of the spans before it. Its colours are
      the line's where the line has any, else the span's, else the terminal's own. */
  lemma {:induction false} CellOfSpan(line: HistoryLine, spans: seq<Span>, p: Palette, k: nat, j: nat)
    requires k < |spans| && j < |spans[k].symbols|
    ensures var i := SymbolCount(spans[..k]) + j;
            var span := spans[k];
            && |SpansCells(line, spans, p)| == SymbolCount(spans) && i < SymbolCount(spans)
            && SpansCells(line, spans, p)[i] ==
               Cell(span.symbols[j],
                 p.fg(if line.fg.Some? then line.fg.value else if span.fg.Some? then span.fg.value else Reset),
                 p.bg(if line.bg.Some? then line.bg.value else if span.bg.Some? then span.bg.value else Reset),
                 Emitted(span.modifier))
  {
    hide SpanCells, Emitted;
    CellsCount(line, spans[1..], p);
    var first, rest := SpanCells(line, spans[0], p), SpansCells(line, spans[1..], p);
    var all := SpansCells(line, spans, p);
    assert all == first + rest && |first| == |spans[0].symbols|;
    if k == 0 {
      assert spans[..0] == [] && all[j] == first[j];
      SpanCellIs(line, spans[0], p, j);
    } else {
      CellOfSpan(line, spans[1..], p, k - 1, j);
      assert spans[..k][0] == spans[0] && spans[..k][1..] == spans[1..][..k - 1];
      hide SpansCells;
      var i := SymbolCount(spans[1..][..k - 1]) + j;
      assert all[|first| + i] == rest[i];
      assert SymbolCount(spans[..k]) == |first| + SymbolCount(spans[1..][..k - 1]);
    }
  }

  lemma SpanCellIs(line: HistoryLine, span: Span, p: Palette, j: nat)
    requires j < |span.symbols|
    ensures SpanCells(line, span, p)[j] ==
            Cell(span.symbols[j],
              p.fg(if line.fg.Some? then line.fg.value else if span.fg.Some? then span.fg.value else Reset),
              p.bg(if line.bg.Some? then line.bg.value else if span.bg.Some? then span.bg.value else Reset),
              Emitted(span.modifier))
  {
    assert ColorOf(line.fg, span.fg) == if line.fg.Some? then line.fg.value else if span.fg.Some? then span.fg.value else Reset;
    assert ColorOf(line.bg, span.bg) == if line.bg.Some? then line.bg.value else if span.bg.Some? then span.bg.value else Reset;
  }

  lemma {:induction false} CellsCount(line: HistoryLine, spans: seq<Span>, p: Palette)
    ensures |SpansCells(line, spans, p)| == SymbolCount(spans)
  {
    if spans != [] {
      CellsCount(line, spans[1..], p);
    }
  }

  /** A column in front of the printing keeps what it shows, unless half of it is there. */
  lemma {:induction false} PrintedKeeps(row: Line, x: nat, cells: seq<Cell>, c: nat)
    requires x + CellsWidth(cells) <= |row| && c < x && (row[c].Head? ==> c + 1 < x)
    ensures Printed(row, x, cells)[c] == row[c]
    decreases |cells|
  {
    if cells != [] {
      PrintedKeeps(Overwrite(row, x, cells[0]), x + Width(cells[0].symbol), cells[1..], c);
    }
  }

  /** Symbol i starts in the column where the widths of those before it end. */
  lemma {:induction false} PrintedAt(row: Line, x: nat, cells: seq<Cell>, i: nat)
    requires x + CellsWidth(cells) <= |row| && i < |cells|
    ensures var c := x + CellsWidth(cells[..i]);
            var r := Printed(row, x, cells);
            && c + Width(cells[i].symbol) <= x + CellsWidth(cells)
            && r[c] == (if cells[i].symbol.Wide? then Head(cells[i]) else Glyph(cells[i]))
            && (cells[i].symbol.Wide? ==> r[c + 1] == Tail)
    decreases |cells|
  {
    var first, w := cells[0], Width(cells[0].symbol);
    var next := Overwrite(row, x, first);
    if i == 0 {
      assert cells[..0] == [];
      PrintedKeeps(next, x + w, cells[1..], x);
      if w == 2 { PrintedKeeps(next, x + w, cells[1..], x + 1); }
    } else {
      PrintedAt(next, x + w, cells[1..], i - 1);
      assert cells[..i][1..] == cells[1..][..i - 1];
    }
  }

  lemma {:induction false} PrintedLeaves(row: Line, x: nat, cells: seq<Cell>)
    requires x + CellsWidth(cells) <= |row| && forall c :: x <= c < |row| ==> row[c] == Blank(Reset)
    ensures forall c :: x + CellsWidth(cells) <= c < |row| ==> Printed(row, x, cells)[c] == Blank(Reset)
    decreases |cells|
  {
    if cells != [] {
      PrintedLeaves(Overwrite(row, x, cells[0]), x + Width(cells[0].symbol), cells[1..]);
    }
  }

  /** The finished screen line: blank padding, the symbols of all spans one behind the
      other, blank to the end. */
  lemma ImageExactly(line: HistoryLine, padding: nat, width: nat, p: Palette)
    requires FitsWidth(line, padding, width, p)
    ensures var cells, image := SpansCells(line, line.spans, p), LineImage(line, padding, width, p);
            && (forall c :: 0 <= c < width && (c < padding || c >= padding + CellsWidth(cells)) ==> image[c] == Blank(Reset))
            && forall i :: 0 <= i < |cells| ==> ShowsCell(image, padding + CellsWidth(cells[..i]), cells[i])
  {
    hide Printed, Overwrite, SpansCells;
    var cells, row := SpansCells(line, line.spans, p), BlankLine(width, Reset);
    PrintedLeaves(row, padding, cells);
    forall c | 0 <= c < padding ensures Printed(row, padding, cells)[c] == Blank(Reset) {
      PrintedKeeps(row, padding, cells, c);
    }
    forall i | 0 <= i < |cells| ensures ShowsCell(LineImage(line, padding, width, p), padding + CellsWidth(cells[..i]), cells[i]) {
      PrintedAt(row, padding, cells, i);
    }
  }

  /** The cell is on the line, both halves of it if it is wide. */
  predicate ShowsCell(line: Line, c: nat, cell: Cell) {
    && c + Width(cell.symbol) <= |line|
    && if cell.symbol.Wide? then line[c] == Head(cell) && line[c + 1] == Tail else line[c] == Glyph(cell)
  }

  // -------------------------------------------------------------- what it does

  /** The terminal after printing cells at the cursor. */
  function AfterPrinting(t: Terminal, cells: seq<Cell>): Terminal
    requires t.Ok() && t.x + CellsWidth(cells) <= t.width
  {
    t.(grid := t.grid[t.y := Printed(t.grid[t.y], t.x, cells)], x := t.x + CellsWidth(cells))
  }

  lemma {:induction false} ExecPrints(t: Terminal, symbols: seq<Symbol>, cells: seq<Cell>)
    requires t.Ok() && |cells| == |symbols|
    requires forall i :: 0 <= i < |cells| ==> cells[i] == Cell(symbols[i], t.fg, t.bg, t.modifier)
    requires t.x + CellsWidth(cells) <= t.width
    ensures ExecAll(t, Prints(symbols)) == AfterPrinting(t, cells)
    decreases |symbols|
  {
    hide Overwrite;
    if symbols == [] {
      assert t.grid[t.y := t.grid[t.y]] == t.grid;
    } else {
      assert Prints(symbols)[1..] == Prints(symbols[1..]);
      ExecOk(t, Print(symbols[0]));
      var u := Exec(t, Print(symbols[0]));
      ExecPrints(u, symbols[1..], cells[1..]);
      assert u.grid[t.y := Printed(u.grid[t.y], u.x, cells[1..])] == t.grid[t.y := Printed(t.grid[t.y], t.x, cells)];
    }
  }

  lemma ExecTwoColors(t: Terminal, fg: Color, bg: Color)
    requires t.Ok()
    ensures ExecAll(t, [SetFg(fg), SetBg(bg)]) == t.(fg := fg, bg := bg)
  {
    hide ExecAll;
    assert [SetFg(fg), SetBg(bg)] == [SetFg(fg)] + [SetBg(bg)];
    ExecConcat(t, [SetFg(fg)], [SetBg(bg)]);
    ExecOne(t, SetFg(fg));
    ExecOne(t.(fg := fg), SetBg(bg));
  }

  /** Setting attributes on plain text, and unsetting all of them, loses nothing. */
  lemma ExecSetModifier(t: Terminal, m: Modifier)
    requires t.Ok() && t.modifier == PLAIN
    ensures ExecAll(t, AttrOps(ModifierChanges(PLAIN, m))) == t.(modifier := Emitted(m))
  {
    hide ExecAll, AttrOps, ModifierChanges;
    ExecModifierChanges(t, PLAIN, m, true);
    assert Really(m, BoldAfter(true, PLAIN, m)) == Emitted(m);
  }

  lemma ExecUnsetModifier(t: Terminal, m: Modifier)
    requires t.Ok() && t.modifier == Emitted(m)
    ensures ExecAll(t, AttrOps(ModifierChanges(m, PLAIN))) == t.(modifier := PLAIN)
  {
    hide ExecAll, AttrOps, ModifierChanges;
    assert Really(m, true) == Emitted(m);
    ExecModifierChanges(t, m, PLAIN, true);
  }

  lemma ExecSpan(t: Terminal, line: HistoryLine, span: Span, p: Palette)
    requires t.Ok() && t.modifier == PLAIN && t.x + CellsWidth(SpanCells(line, span, p)) <= t.width
    ensures ExecAll(t, SpanOps(line, span, p)) ==
            AfterPrinting(t, SpanCells(line, span, p)).(fg := p.fg(ColorOf(line.fg, span.fg)), bg := p.bg(ColorOf(line.bg, span.bg)))
  {
    hide ExecAll, AttrOps, ModifierChanges, Prints, Printed, Emitted;
    var fg, bg := p.fg(ColorOf(line.fg, span.fg)), p.bg(ColorOf(line.bg, span.bg));
    var cells := SpanCells(line, span, p);
    var on, off := AttrOps(ModifierChanges(PLAIN, span.modifier)), AttrOps(ModifierChanges(span.modifier, PLAIN));
    ExecConcat(t, on, [SetFg(fg), SetBg(bg)]);
    ExecSetModifier(t, span.modifier);
    var t1 := t.(modifier := Emitted(span.modifier));
    ExecTwoColors(t1, fg, bg);
    var t2 := t1.(fg := fg, bg := bg);
    ExecConcat(t, on + [SetFg(fg), SetBg(bg)], Prints(span.symbols));
    ExecPrints(t2, span.symbols, cells);
    ExecConcat(t, on + [SetFg(fg), SetBg(bg)] + Prints(span.symbols), off);
    AfterPrintingOk(t2, cells);
    ExecUnsetModifier(AfterPrinting(t2, cells), span.modifier);
  }

  lemma AfterPrintingOk(t: Terminal, cells: seq<Cell>)
    requires t.Ok() && t.x + CellsWidth(cells) <= t.width
    ensures AfterPrinting(t, cells).Ok()
  {
  }

  lemma {:induction false} PrintedConcat(row: Line, x: nat, a: seq<Cell>, b: seq<Cell>)
    requires x + CellsWidth(a + b) <= |row|
    ensures CellsWidth(a + b) == CellsWidth(a) + CellsWidth(b)
    ensures Printed(row, x, a + b) == Printed(Printed(row, x, a), x + CellsWidth(a), b)
    decreases |a|
  {
    hide Overwrite;
    if a == [] {
      assert a + b == b;
    } else {
      assert (a + b)[1..] == a[1..] + b;
      PrintedConcat(Overwrite(row, x, a[0]), x + Width(a[0].symbol), a[1..], b);
    }
  }

  /** The spans leave their cells behind and colours nobody relies on. */
  lemma {:induction false} ExecSpans(t: Terminal, line: HistoryLine, spans: seq<Span>, p: Palette)
    requires t.Ok() && t.modifier == PLAIN && t.x + CellsWidth(SpansCells(line, spans, p)) <= t.width
    ensures var r := ExecAll(t, SpansOps(line, spans, p));
            r == AfterPrinting(t, SpansCells(line, spans, p)).(fg := r.fg, bg := r.bg)
    decreases |spans|
  {
    hide ExecAll, SpanOps, Printed, SpanCells;
    if spans == [] {
      NoSpans(line, p);
      ExecNothing(t);
      assert Printed(t.grid[t.y], t.x, []) == t.grid[t.y] by { PrintedNothing(t.grid[t.y], t.x); }
      assert t.grid[t.y := t.grid[t.y]] == t.grid;
    } else {
      var a, b := SpanCells(line, spans[0], p), SpansCells(line, spans[1..], p);
      PrintedConcat(t.grid[t.y], t.x, a, b);
      ExecSpan(t, line, spans[0], p);
      ExecConcat(t, SpanOps(line, spans[0], p), SpansOps(line, spans[1..], p));
      var u := ExecAll(t, SpanOps(line, spans[0], p));
      ExecSpans(u, line, spans[1..], p);
      assert u.grid[t.y := Printed(u.grid[t.y], u.x, b)] == t.grid[t.y := Printed(t.grid[t.y], t.x, a + b)];
    }
  }

  lemma PrintedNothing(row: Line, x: nat)
    requires x <= |row|
    ensures Printed(row, x, []) == row
  {
  }

  /** A line written at the cursor changes the cursor's row and nothing else. */
  lemma ExecLine(t: Terminal, line: HistoryLine, p: Palette)
    requires t.Ok() && t.IsPlain() && t.x + CellsWidth(SpansCells(line, line.spans, p)) <= t.width
    ensures var r := ExecAll(t, LineOps(line, p));
            && r.grid == t.grid[t.y := Printed(t.grid[t.y], t.x, SpansCells(line, line.spans, p))]
            && r.IsPlain() && r.y == t.y && r.top == t.top && r.bottom == t.bottom
  {
    hide ExecAll, SpansOps, SpansCells, Printed, FINISH;
    var colors := [SetFg(p.fg(ColorOf(line.fg, None))), SetBg(p.bg(ColorOf(line.bg, None)))];
    ExecTwoColors(t, p.fg(ColorOf(line.fg, None)), p.bg(ColorOf(line.bg, None)));
    var t1 := ExecAll(t, colors);
    ExecConcat(t, colors, SpansOps(line, line.spans, p));
    ExecSpans(t1, line, line.spans, p);
    ExecConcat(t, colors + SpansOps(line, line.spans, p), FINISH);
    ExecFinishKeeps(ExecAll(t1, SpansOps(line, line.spans, p)));
  }

  lemma ExecFinishKeeps(t: Terminal)
    requires t.Ok() && !t.lost
    ensures ExecAll(t, FINISH) == t.(fg := Reset, bg := Reset, modifier := PLAIN)
  {
    hide ExecAll;
    assert FINISH == [SetFg(Reset), SetBg(Reset)] + [Attr(ResetAll)];
    ExecConcat(t, [SetFg(Reset), SetBg(Reset)], [Attr(ResetAll)]);
    ExecTwoColors(t, Reset, Reset);
    ExecOne(t.(fg := Reset, bg := Reset), Attr(ResetAll));
  }

  // ----------------------------------------------------- a line at the bottom margin

  /** Carriage return and line feed, clearing, and the left padding. */
  function NewRowOps(padding: nat): seq<Op> {
    [CarriageReturn] + ([LineFeed] + ([ClearLine] + [MoveToColumn(padding)]))
  }

  lemma LastScrolledRow(grid: Grid, top: nat, bottom: nat, image: Line)
    requires top <= bottom < |grid|
    ensures ScrollUp(grid, top, bottom, image)[bottom] == image
  {
  }

  lemma BlankRow(width: nat)
    requires width > 0
    ensures ClearFrom(BlankLine(width, Reset), 0, Reset) == BlankLine(width, Reset)
  {
  }

  lemma ClearWhole(line: Line)
    requires line != []
    ensures ClearFrom(line, 0, Reset) == BlankLine(|line|, Reset)
  {
  }

  lemma ExecNewRow(t: Terminal, padding: nat)
    requires t.Ok() && t.IsPlain() && t.y == t.bottom && padding < t.width
    ensures ExecAll(t, NewRowOps(padding)) ==
            t.(grid := ScrollUp(t.grid, t.top, t.bottom, BlankLine(t.width, Reset)), x := padding)
  {
    hide ExecAll, Exec, ClearFrom, BlankLine, ScrollUp;
    BlankRow(t.width);
    LastScrolledRow(t.grid, t.top, t.bottom, BlankLine(t.width, Reset));
    var lineFeed, clear, move := [LineFeed], [ClearLine], [MoveToColumn(padding)];
    ReturnEffect(t);
    ExecConcat(t, [CarriageReturn], lineFeed + (clear + move));
    ExecOne(t, CarriageReturn);
    var t1 := t.(x := 0);
    FeedEffect(t1);
    ExecConcat(t1, lineFeed, clear + move);
    ExecOne(t1, LineFeed);
    ExecClearScrolled(t1.(grid := ScrollUp(t.grid, t.top, t.bottom, BlankLine(t.width, Reset))), padding);
  }

  lemma ExecClearScrolled(t: Terminal, padding: nat)
    requires t.Ok() && t.IsPlain() && t.x == 0 && t.grid[t.y] == BlankLine(t.width, Reset) && padding < t.width
    ensures ExecAll(t, [ClearLine] + [MoveToColumn(padding)]) == t.(x := padding)
  {
    hide ExecAll, ClearFrom, BlankLine, ScrollUp;
    BlankRow(t.width);
    ClearLineEffect(t);
    ExecConcat(t, [ClearLine], [MoveToColumn(padding)]);
    ExecOne(t, ClearLine);
    assert t.grid[t.y := BlankLine(t.width, Reset)] == t.grid;
    ExecOne(t, MoveToColumn(padding));
  }

  lemma ExecHistoryLine(t: Terminal, line: HistoryLine, padding: nat, p: Palette)
    requires t.Ok() && t.IsPlain() && t.y == t.bottom && padding < t.width && FitsWidth(line, padding, t.width, p)
    ensures var r := ExecAll(t, NewRowOps(padding) + LineOps(line, p));
            && r.grid == ScrollUp(t.grid, t.top, t.bottom, LineImage(line, padding, t.width, p))
            && r.IsPlain() && r.y == t.y && r.top == t.top && r.bottom == t.bottom
  {
    hide ExecAll, LineOps, NewRowOps, SpansCells, Printed;
    ExecConcat(t, NewRowOps(padding), LineOps(line, p));
    ExecNewRow(t, padding);
    var u := ExecAll(t, NewRowOps(padding));
    ExecLine(u, line, p);
    assert u.grid[t.y := LineImage(line, padding, t.width, p)] == ScrollUp(t.grid, t.top, t.bottom, LineImage(line, padding, t.width, p));
  }

  /** Several lines: the region shows the newest rows of what was there and the lines. */
  lemma AppendedMany(grid: Grid, base: Grid, bottom: nat, images: seq<Line>, k: nat)
    requires k < |images| && bottom < |base| == |grid|
    requires Scrolled(grid, base, bottom, images[..k])
    ensures Scrolled(ScrollUp(grid, 0, bottom, images[k]), base, bottom, images[..k + 1])
  {
    var r := ScrollUp(grid, 0, bottom, images[k]);
    var before, after := base[..bottom + 1] + images[..k], base[..bottom + 1] + images[..k + 1];
    assert after == before + [images[k]];
  }

  ghost predicate Scrolled(r: Grid, base: Grid, bottom: nat, images: seq<Line>)
    requires bottom < |base|
  {
    && |r| == |base|
    && (forall i :: bottom < i < |base| ==> r[i] == base[i])
    && (forall i :: 0 <= i <= bottom ==> r[i] == (base[..bottom + 1] + images)[i + |images|])
  }
}
