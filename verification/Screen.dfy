/**
 The physical screen, line by line. A wide symbol takes two columns; writing over one
 half of it destroys the other, and what is left there is unknown: no assumption is
 made about what a terminal shows in its place.
 */
module Screen {
  import opened Cells

  datatype ScreenCell = Glyph(cell: Cell) | Head(cell: Cell) | Tail | Broken

  type Line = seq<ScreenCell>

  // ------------------------------------------------------------------ operations

  /** Column c after columns from..to have been written over: the other half of a wide
      symbol that lost one is broken. */
  function Beside(line: Line, from: nat, to: nat, c: nat): ScreenCell
    requires from < to <= |line| && c < |line|
  {
    if c + 1 == from && line[from].Tail? && line[c].Head? then Broken
    else if c == to && line[to - 1].Head? then Broken
    else line[c]
  }

  /** Printing a symbol at column x. */
  function Overwrite(line: Line, x: nat, cell: Cell): (r: Line)
    requires x + Width(cell.symbol) <= |line|
    ensures |r| == |line|
  {
    var w := Width(cell.symbol);
    seq(|line|, c requires 0 <= c < |line| =>
      if c == x then (if w == 2 then Head(cell) else Glyph(cell))
      else if x < c < x + w then Tail
      else Beside(line, x, x + w, c))
  }

  function Blank(bg: Color): ScreenCell {
    Glyph(Cell(SPACE, Reset, bg, PLAIN))
  }

  /** Erasing from column x to the end of the line. */
  function ClearFrom(line: Line, x: nat, bg: Color): (r: Line)
    requires x < |line|
    ensures |r| == |line|
  {
    seq(|line|, c requires 0 <= c < |line| => if c >= x then Blank(bg) else Beside(line, x, |line|, c))
  }

  function BlankLine(width: nat, bg: Color): (r: Line)
    ensures |r| == width && forall c :: 0 <= c < width ==> r[c] == Blank(bg)
  {
    seq(width, _ => Blank(bg))
  }

  // ------------------------------------------------------------ what is displayed

  /** Column c of the screen line looks as column c of the buffer row demands. */
  predicate Displays(line: Line, row: Row, p: Palette, c: nat)
    requires c < |line| == |row|
  {
    if IsCovered(row, c) then line[c].Tail?
    else if row[c].symbol.Wide? then line[c] == Head(p.Drawn(row[c]))
    else line[c].Glyph? && SameLook(line[c].cell, p.Drawn(row[c]))
  }

  predicate Shows(line: Line, row: Row, p: Palette) {
    |line| == |row| && forall c :: 0 <= c < |row| ==> Displays(line, row, p, c)
  }

  lemma BlankShows(width: nat, p: Palette)
    requires p.KeepsReset()
    ensures Shows(BlankLine(width, Reset), Blanks(width), p)
  {
  }
}
