/** Terminal cells, the buffers a frame is rendered into, and how a cell looks. */
module Cells {

  datatype Color = Reset | Indexed(index: nat) | Rgb(red: nat, green: nat, blue: nat)

  datatype Modifier = Modifier(
    bold: bool, dim: bool, italic: bool, underlined: bool, reversed: bool, crossedOut: bool,
    slowBlink: bool, rapidBlink: bool, hidden: bool)

  const PLAIN := Modifier(false, false, false, false, false, false, false, false, false)

  /** The text of a cell, one or two columns wide. */
  datatype Symbol = Narrow(text: string) | Wide(text: string)

  const SPACE := Narrow(" ")

  function Width(symbol: Symbol): nat {
    if symbol.Wide? then 2 else 1
  }

  datatype Cell = Cell(symbol: Symbol, fg: Color, bg: Color, modifier: Modifier)

  const EMPTY := Cell(SPACE, Reset, Reset, PLAIN)

  datatype Rect = Rect(x: nat, y: nat, width: nat, height: nat)

  type Row = seq<Cell>

  datatype Buffer = Buffer(area: Rect, content: seq<Cell>) {

    predicate IsSized() {
      |content| == area.height * area.width
    }

    function RowAt(y: nat): (row: Row)
      requires IsSized() && y < area.height
      ensures |row| == area.width
    {
      RowFits(y, area.height, area.width);
      content[y * area.width..(y + 1) * area.width]
    }

    /** Every wide symbol is followed, in its row, by the space it covers. */
    predicate IsWellFormed() {
      IsSized() && forall y :: 0 <= y < area.height ==> RowOk(RowAt(y))
    }
  }

  lemma RowFits(y: nat, height: nat, width: nat)
    requires y < height
    ensures y * width <= (y + 1) * width <= height * width
    ensures (y + 1) * width == y * width + width
  {
  }

  predicate RowOk(row: Row) {
    forall c :: 0 <= c < |row| && row[c].symbol.Wide? ==> c + 1 < |row| && row[c + 1].symbol == SPACE
  }

  /** Column c is the second half of a wide symbol. */
  predicate IsCovered(row: Row, c: nat)
    requires c < |row|
  {
    c > 0 && row[c - 1].symbol.Wide?
  }

  function Blanks(n: nat): (row: Row)
    ensures |row| == n && forall c :: 0 <= c < n ==> row[c] == EMPTY
  {
    seq(n, _ => EMPTY)
  }

  function EmptyBuffer(area: Rect): (b: Buffer)
    ensures b.area == area
  {
    Buffer(area, Blanks(area.height * area.width))
  }

  lemma EmptyRow(area: Rect, y: nat)
    requires y < area.height
    ensures EmptyBuffer(area).RowAt(y) == Blanks(area.width)
  {
    RowFits(y, area.height, area.width);
    assert |EmptyBuffer(area).RowAt(y)| == |Blanks(area.width)|;
  }

  lemma EmptyIsWellFormed(area: Rect)
    ensures EmptyBuffer(area).IsWellFormed()
  {
    forall y | 0 <= y < area.height ensures RowOk(EmptyBuffer(area).RowAt(y)) {
      EmptyRow(area, y);
    }
  }

  /** a is b, perhaps without its bold. */
  predicate MayLackBold(a: Cell, b: Cell) {
    (a.modifier.bold ==> b.modifier.bold) && a == b.(modifier := b.modifier.(bold := a.modifier.bold))
  }

  ghost predicate RowMayLackBold(a: Row, b: Row) {
    |a| == |b| && forall c :: 0 <= c < |a| ==> MayLackBold(a[c], b[c])
  }

  ghost predicate BufferMayLackBold(a: Buffer, b: Buffer) {
    a.area == b.area && |a.content| == |b.content| && forall i :: 0 <= i < |a.content| ==> MayLackBold(a.content[i], b.content[i])
  }

  lemma LackingRow(a: Buffer, b: Buffer, y: nat)
    requires BufferMayLackBold(a, b) && b.IsSized() && y < b.area.height
    ensures a.IsSized() && RowMayLackBold(a.RowAt(y), b.RowAt(y))
  {
    hide MayLackBold;
    RowFits(y, b.area.height, b.area.width);
  }

  /** Symbols are where they were. */
  lemma LackingIsWellFormed(a: Buffer, b: Buffer)
    requires BufferMayLackBold(a, b)
    ensures a.IsWellFormed() <==> b.IsWellFormed()
  {
    hide BufferMayLackBold, RowMayLackBold, RowOk, Buffer.RowAt;
    LackingSized(a, b);
    if b.IsSized() {
      forall y | 0 <= y < b.area.height ensures RowOk(a.RowAt(y)) <==> RowOk(b.RowAt(y)) {
        LackingRow(a, b, y);
        LackingRowOk(a.RowAt(y), b.RowAt(y));
      }
    }
  }

  lemma LackingSized(a: Buffer, b: Buffer)
    requires BufferMayLackBold(a, b)
    ensures a.area == b.area && (a.IsSized() <==> b.IsSized())
  {
  }

  lemma LackingRowOk(a: Row, b: Row)
    requires RowMayLackBold(a, b)
    ensures RowOk(a) <==> RowOk(b)
    ensures forall c :: 0 <= c < |a| ==> (IsCovered(a, c) <==> IsCovered(b, c)) && a[c].symbol == b[c].symbol
  {
    assert forall c :: 0 <= c < |a| ==> MayLackBold(a[c], b[c]);
  }

  lemma LacksNothing(a: Buffer)
    ensures BufferMayLackBold(a, a)
  {
  }

  /** The terminal's colours: what a requested colour is adapted to. */
  datatype Palette = Palette(fg: Color -> Color, bg: Color -> Color) {

    /** Resetting a colour is never adapted to anything else. */
    predicate KeepsReset() {
      fg(Reset) == Reset && bg(Reset) == Reset
    }

    /** How a cell is drawn: adapted colours, and only attributes the renderer emits. */
    function Drawn(cell: Cell): Cell {
      Cell(cell.symbol, fg(cell.fg), bg(cell.bg), Emitted(cell.modifier))
    }
  }

  /** The renderer has no escape sequence for blinking and hidden text. */
  function Emitted(m: Modifier): Modifier {
    m.(slowBlink := false, rapidBlink := false, hidden := false)
  }

  /** Nothing but the background is visible. */
  predicate IsInvisible(cell: Cell) {
    cell.symbol == SPACE && cell.modifier == PLAIN
  }

  predicate SameLook(a: Cell, b: Cell) {
    && a.symbol == b.symbol && a.bg == b.bg && a.modifier == b.modifier
    && (IsInvisible(a) || a.fg == b.fg)
  }
}
