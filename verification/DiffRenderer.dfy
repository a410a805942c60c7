/**
 Turning the difference of two frames into draw commands. Each row is first cleared
 behind its last visible column, then the columns that changed, or that a changed
 wide symbol may have damaged, are put again from left to right.
 */
module DiffRenderer {
  import opened Wrappers
  import opened Cells
  import opened Screen

  datatype DrawCommand = Put(x: nat, y: nat, cell: Cell) | ClearToEnd(x: nat, y: nat, bg: Color)

  // ---------------------------------------------------------------- clearing a row

  /** The background a row is cleared with: that of its last cell. */
  function RowBackground(row: Row): Color {
    if row == [] then Reset else row[|row| - 1].bg
  }

  predicate IsBlank(cell: Cell, bg: Color) {
    cell.symbol == SPACE && cell.bg == bg && cell.modifier == PLAIN
  }

  /** The last column that is not blank, walking symbol by symbol from a column on. */
  function LastNonblank(row: Row, bg: Color, column: nat, last: Option<nat>): Option<nat>
    decreases |row| - column
  {
    if column >= |row| then last
    else
      var w := Width(row[column].symbol);
      LastNonblank(row, bg, column + w, if IsBlank(row[column], bg) then last else Some(column + w - 1))
  }

  function LastVisible(row: Row): Option<nat> {
    LastNonblank(row, RowBackground(row), 0, None)
  }

  function ClearStart(row: Row): nat {
    match LastVisible(row)
    case None => 0
    case Some(c) => c + 1
  }

  /** The column puts may reach; a blank row reports column 0. */
  function LastColumn(row: Row): nat {
    match LastVisible(row)
    case None => 0
    case Some(c) => c
  }

  /** Nothing visible lies behind the last visible column, and a wide symbol ends in
      front of the clearing. */
  lemma {:induction false} LastNonblankBounds(row: Row, column: nat, last: Option<nat>)
    requires RowOk(row) && column <= |row| && (column < |row| ==> !IsCovered(row, column))
    requires last.Some? ==> last.value < column
    requires forall c :: 0 <= c < column && (last.None? || c > last.value) ==> IsBlank(row[c], RowBackground(row))
    requires forall c :: 0 <= c < column && row[c].symbol.Wide? ==> last.Some? && c + 1 <= last.value
    ensures var r := LastNonblank(row, RowBackground(row), column, last);
            && (r.Some? ==> r.value < |row|)
            && (forall c :: 0 <= c < |row| && (r.None? || c > r.value) ==> IsBlank(row[c], RowBackground(row)))
            && (forall c :: 0 <= c < |row| && row[c].symbol.Wide? ==> r.Some? && c + 1 <= r.value)
    decreases |row| - column
  {
    if column < |row| {
      var w := Width(row[column].symbol);
      LastNonblankBounds(row, column + w, if IsBlank(row[column], RowBackground(row)) then last else Some(column + w - 1));
    }
  }

  lemma VisibleBounds(row: Row)
    requires RowOk(row)
    ensures ClearStart(row) <= |row|
    ensures forall c :: ClearStart(row) <= c < |row| ==> IsBlank(row[c], RowBackground(row))
    ensures forall c :: 0 <= c < |row| && row[c].symbol.Wide? ==> c + 1 < ClearStart(row) && c + 1 <= LastColumn(row)
    ensures ClearStart(row) == 0 || ClearStart(row) == LastColumn(row) + 1
    ensures ClearStart(row) == 0 ==> LastColumn(row) == 0
  {
    LastNonblankBounds(row, 0, None);
  }

  /** Column c shows something: half of a wide symbol, or anything but a plain space in
      the background of the row's last cell. */
  predicate IsVisible(row: Row, c: nat)
    requires c < |row|
  {
    || (c > 0 && row[c - 1].symbol.Wide?)
    || row[c].symbol != Narrow(" ") || row[c].bg != row[|row| - 1].bg
    || row[c].modifier != Modifier(false, false, false, false, false, false, false, false, false)
  }

  lemma {:induction false} LastNonblankIsVisible(row: Row, column: nat, last: Option<nat>)
    requires RowOk(row) && column <= |row| && (column < |row| ==> !IsCovered(row, column))
    requires last.Some? ==> last.value < |row| && IsVisible(row, last.value)
    ensures var r := LastNonblank(row, RowBackground(row), column, last); r.Some? ==> r.value < |row| && IsVisible(row, r.value)
    decreases |row| - column
  {
    if column < |row| {
      var w := Width(row[column].symbol);
      LastNonblankIsVisible(row, column + w, if IsBlank(row[column], RowBackground(row)) then last else Some(column + w - 1));
    }
  }

  /** Clearing starts right behind the last column that shows something. */
  lemma ClearStartIs(row: Row)
    requires RowOk(row)
    ensures ClearStart(row) <= |row|
    ensures ClearStart(row) > 0 ==> IsVisible(row, ClearStart(row) - 1)
    ensures forall c :: ClearStart(row) <= c < |row| ==> !IsVisible(row, c)
    ensures RowBackground(row) == if row == [] then Reset else row[|row| - 1].bg
  {
    VisibleBounds(row);
    LastNonblankIsVisible(row, 0, None);
    forall c | ClearStart(row) <= c < |row| ensures !IsVisible(row, c) {
      assert IsBlank(row[c], RowBackground(row));
      assert c > 0 && row[c - 1].symbol.Wide? ==> c < ClearStart(row);
    }
  }

  // ---------------------------------------------------------------- one screen line

  /** Column x is put again: it differs, or a wide symbol on its left, old or new, may
      have damaged it; columns covered by a new wide symbol are drawn with it. */
  predicate NeedsPut(previous: Row, next: Row, x: nat)
    requires x < |previous| == |next|
  {
    && !IsCovered(next, x)
    && (next[x] != previous[x] || IsCovered(previous, x))
    && x <= LastColumn(next)
  }

  function Cleared(line: Line, next: Row, p: Palette): (r: Line)
    requires |line| == |next|
    ensures |r| == |line|
  {
    if ClearStart(next) < |next| then ClearFrom(line, ClearStart(next), p.bg(RowBackground(next))) else line
  }

  /** The line after the clear and the puts of the first x columns, each with the cell
      that is really drawn. */
  function Painted(line: Line, previous: Row, next: Row, drawn: Row, p: Palette, x: nat): (r: Line)
    requires |line| == |previous| == |next| == |drawn| && x <= |next| && RowOk(drawn)
    ensures |r| == |line|
  {
    if x == 0 then Cleared(line, next, p)
    else
      var r := Painted(line, previous, next, drawn, p, x - 1);
      if NeedsPut(previous, next, x - 1) then Overwrite(r, x - 1, p.Drawn(drawn[x - 1])) else r
  }

  /** What clearing leaves in front of the cleared columns. */
  lemma ClearedAt(line: Line, previous: Row, next: Row, p: Palette, c: nat)
    requires |line| == |next| && c < |line| && RowOk(previous) && RowOk(next) && Shows(line, previous, p)
    ensures var r := Cleared(line, next, p);
            && (c >= ClearStart(next) ==> r[c] == Blank(p.bg(RowBackground(next))))
            && (c < ClearStart(next) ==> r[c] == line[c] || (c + 1 == ClearStart(next) && line[c].Head?))
            && (r[c].Head? ==> previous[c].symbol.Wide? && c + 1 < ClearStart(next))
  {
    VisibleBounds(next);
    var s := ClearStart(next);
    assert Displays(line, previous, p, c);
    if s < |next| {
      assert Displays(line, previous, p, s);
      if s > 0 { assert Displays(line, previous, p, s - 1); }
    } else if line[c].Head? {
      assert previous[c].symbol.Wide?;
    }
  }

  /** The state of a line when the columns before x are done. s is the painted line, s0
      the cleared one: what is not yet drawn is as cleared, or broken by the old wide
      symbol to its left having been overwritten. */
  ghost predicate DoneTo(s: Line, s0: Line, next: Row, p: Palette, x: nat) {
    && |s| == |s0| == |next| && x <= |next|
    && (forall c :: 0 <= c < x ==> Displays(s, next, p, c))
    && (forall c :: x + 2 <= c < |s| ==> s[c] == s0[c])
    && (x + 1 < |s| ==> s[x + 1] == s0[x + 1] || (s[x + 1].Broken? && IsCovered(next, x) && s0[x].Head?))
    && (x < |s| ==> if IsCovered(next, x) then s[x].Tail?
                    else s[x] == s0[x] || (s[x].Broken? && x > 0 && s0[x - 1].Head?))
  }

  lemma DoneCovered(s: Line, s0: Line, next: Row, p: Palette, x: nat)
    requires RowOk(next) && DoneTo(s, s0, next, p, x) && x < |next| && IsCovered(next, x)
    ensures DoneTo(s, s0, next, p, x + 1)
  {
    assert next[x].symbol == SPACE;
  }

  lemma DonePutNarrow(s: Line, s0: Line, next: Row, p: Palette, x: nat)
    requires RowOk(next) && DoneTo(s, s0, next, p, x) && x < |next| && !IsCovered(next, x) && next[x].symbol.Narrow?
    ensures DoneTo(Overwrite(s, x, p.Drawn(next[x])), s0, next, p, x + 1)
  {
    var r := Overwrite(s, x, p.Drawn(next[x]));
    forall c | 0 <= c <= x ensures Displays(r, next, p, c) {
      if c < x { assert Displays(s, next, p, c); }
    }
  }

  lemma DonePutWide(s: Line, s0: Line, next: Row, p: Palette, x: nat)
    requires RowOk(next) && DoneTo(s, s0, next, p, x) && x < |next| && !IsCovered(next, x) && next[x].symbol.Wide?
    ensures DoneTo(Overwrite(s, x, p.Drawn(next[x])), s0, next, p, x + 1)
  {
    var r := Overwrite(s, x, p.Drawn(next[x]));
    forall c | 0 <= c <= x ensures Displays(r, next, p, c) {
      if c < x { assert Displays(s, next, p, c); }
    }
  }

  /** What a line that shows one row really shows after the difference between two rows
      was drawn over it: the puts, perhaps without bold, and elsewhere what it showed
      before, or blank. The row it showed is the previous one, perhaps without bold. */
  ghost predicate IsDrawn(drawn: Row, shown: Row, previous: Row, next: Row) {
    && RowMayLackBold(shown, previous) && RowMayLackBold(drawn, next) && |previous| == |next|
    && forall c :: 0 <= c < |next| && !NeedsPut(previous, next, c) ==>
         drawn[c] == if IsCovered(next, c) || c >= ClearStart(next) then next[c] else shown[c]
  }

  /** What is drawn in a column that is not put. */
  lemma UntouchedColumn(shown: Row, previous: Row, next: Row, drawn: Row, x: nat)
    requires x < |next| && RowOk(previous) && RowOk(next) && IsDrawn(drawn, shown, previous, next)
    requires !IsCovered(next, x) && !NeedsPut(previous, next, x)
    ensures !IsCovered(drawn, x) && RowOk(shown)
    ensures x < ClearStart(next) ==> drawn[x] == shown[x] && !IsCovered(shown, x)
    ensures x >= ClearStart(next) ==> IsBlank(drawn[x], RowBackground(next))
    ensures drawn[x].symbol.Wide? ==> x + 1 < ClearStart(next)
    ensures shown[x].symbol.Wide? && x < ClearStart(next) ==> x + 1 < |shown|
  {
    hide LastVisible, MayLackBold;
    LackingRowOk(shown, previous);
    LackingRowOk(drawn, next);
    VisibleBounds(next);
  }

  /** A column that is not put is right already: it lies in the cleared part, or it is
      unchanged and nothing has touched it. */
  lemma DoneUntouched(line: Line, s: Line, shown: Row, previous: Row, next: Row, drawn: Row, p: Palette, x: nat)
    requires |line| == |next| && RowOk(previous) && RowOk(next) && Shows(line, shown, p) && IsDrawn(drawn, shown, previous, next)
    requires DoneTo(s, Cleared(line, next, p), drawn, p, x)
    requires x < |next| && !IsCovered(next, x) && !NeedsPut(previous, next, x)
    ensures DoneTo(s, Cleared(line, next, p), drawn, p, x + 1)
  {
    hide LastVisible, NeedsPut, IsDrawn, RowMayLackBold, ClearStart, RowOk, Cleared;
    UntouchedColumn(shown, previous, next, drawn, x);
    var s0 := Cleared(line, next, p);
    ClearedAt(line, shown, next, p, x);
    if x > 0 { ClearedAt(line, shown, next, p, x - 1); }
    assert s[x] == s0[x];
    assert Displays(line, shown, p, x);
    if x < ClearStart(next) && drawn[x].symbol.Wide? {
      ClearedAt(line, shown, next, p, x + 1);
      assert Displays(line, shown, p, x + 1);
    }
  }

  lemma DrawnLacks(shown: Row, previous: Row, next: Row, drawn: Row)
    requires IsDrawn(drawn, shown, previous, next)
    ensures RowMayLackBold(shown, previous) && RowMayLackBold(drawn, next) && |previous| == |next|
  {
  }

  lemma LackingLength(a: Row, b: Row)
    requires RowMayLackBold(a, b)
    ensures |a| == |b|
  {
  }

  lemma {:induction false} PaintedIsDone(line: Line, shown: Row, previous: Row, next: Row, drawn: Row, p: Palette, x: nat)
    requires |line| == |next| && x <= |next| && RowOk(previous) && RowOk(next)
    requires Shows(line, shown, p) && IsDrawn(drawn, shown, previous, next)
    ensures RowOk(drawn)
    ensures DoneTo(Painted(line, previous, next, drawn, p, x), Cleared(line, next, p), drawn, p, x)
    decreases x
  {
    hide NeedsPut, MayLackBold, DoneTo, Cleared, Overwrite, Shows, ClearStart, IsDrawn, RowMayLackBold;
    DrawnLacks(shown, previous, next, drawn);
    LackingRowOk(shown, previous);
    LackingRowOk(drawn, next);
    LackingLength(drawn, next);
    if x > 0 {
      PaintedIsDone(line, shown, previous, next, drawn, p, x - 1);
      var s, s0 := Painted(line, previous, next, drawn, p, x - 1), Cleared(line, next, p);
      if IsCovered(next, x - 1) {
        NoPutOnCovered(previous, next, x - 1);
        DoneCovered(s, s0, drawn, p, x - 1);
      } else if !NeedsPut(previous, next, x - 1) {
        DoneUntouched(line, s, shown, previous, next, drawn, p, x - 1);
      } else if next[x - 1].symbol.Wide? {
        DonePutWide(s, s0, drawn, p, x - 1);
      } else {
        DonePutNarrow(s, s0, drawn, p, x - 1);
      }
    } else {
      PaintedNothing(line, shown, next, drawn, p);
    }
  }

  lemma PaintedNothing(line: Line, shown: Row, next: Row, drawn: Row, p: Palette)
    requires |line| == |next| == |drawn| && RowOk(drawn)
    ensures DoneTo(Cleared(line, next, p), Cleared(line, next, p), drawn, p, 0)
  {
  }

  lemma NoPutOnCovered(previous: Row, next: Row, x: nat)
    requires x < |previous| == |next| && IsCovered(next, x)
    ensures !NeedsPut(previous, next, x)
  {
  }

  /** Whatever bold was lost before or is lost now, a line that shows one row shows the
      really drawn one when it is painted to its end. */
  lemma PaintedShowsDrawn(line: Line, shown: Row, previous: Row, next: Row, drawn: Row, p: Palette)
    requires |line| == |next| && RowOk(previous) && RowOk(next)
    requires Shows(line, shown, p) && IsDrawn(drawn, shown, previous, next)
    ensures RowOk(drawn) && Shows(Painted(line, previous, next, drawn, p, |next|), drawn, p)
  {
    hide NeedsPut, Displays, RowOk, Painted, Cleared;
    PaintedIsDone(line, shown, previous, next, drawn, p, |next|);
  }

  /** The next row itself is drawn where nothing is lost. */
  lemma NextIsDrawn(previous: Row, next: Row)
    requires |previous| == |next| && RowOk(previous) && RowOk(next)
    ensures IsDrawn(next, previous, previous, next)
  {
    hide LastVisible;
    VisibleBounds(next);
  }

  // ----------------------------------------------------------- commands of a frame

  /** Two frames for the same part of the screen. */
  ghost predicate Comparable(previous: Buffer, next: Buffer) {
    && previous.area == next.area && next.area.x == 0
    && previous.IsWellFormed() && next.IsWellFormed()
  }

  function ClearOf(next: Buffer, y: nat): seq<DrawCommand>
    requires next.IsSized() && y < next.area.height
  {
    var row := next.RowAt(y);
    if ClearStart(row) < next.area.width then [ClearToEnd(ClearStart(row), next.area.y + y, RowBackground(row))] else []
  }

  /** The clears of the rows above y. */
  function Clears(next: Buffer, y: nat): seq<DrawCommand>
    requires next.IsSized() && y <= next.area.height
  {
    if y == 0 then [] else Clears(next, y - 1) + ClearOf(next, y - 1)
  }

  /** A put carries the cell that is drawn, which is the next frame's own unless a
      terminal loses some of it. */
  function PutOf(previous: Buffer, next: Buffer, drawn: Buffer, y: nat, x: nat): seq<DrawCommand>
    requires previous.IsSized() && next.IsSized() && drawn.IsSized() && previous.area == next.area == drawn.area
    requires y < next.area.height && x < next.area.width
  {
    if NeedsPut(previous.RowAt(y), next.RowAt(y), x) then [Put(x, next.area.y + y, drawn.RowAt(y)[x])] else []
  }

  /** The puts of the rows above y and of the first x columns of row y. */
  function Puts(previous: Buffer, next: Buffer, drawn: Buffer, y: nat, x: nat): seq<DrawCommand>
    requires previous.IsSized() && next.IsSized() && drawn.IsSized() && previous.area == next.area == drawn.area
    requires y <= next.area.height && x <= next.area.width && (y == next.area.height ==> x == 0)
    decreases y, x
  {
    if x > 0 then Puts(previous, next, drawn, y, x - 1) + PutOf(previous, next, drawn, y, x - 1)
    else if y > 0 then Puts(previous, next, drawn, y - 1, next.area.width)
    else []
  }

  /** All that is drawn: clears, then puts. */
  function DrawnCommands(previous: Buffer, next: Buffer, drawn: Buffer): seq<DrawCommand>
    requires previous.IsSized() && next.IsSized() && drawn.IsSized() && previous.area == next.area == drawn.area
  {
    Clears(next, next.area.height) + Puts(previous, next, drawn, next.area.height, 0)
  }

  function DiffCommands(previous: Buffer, next: Buffer): seq<DrawCommand>
    requires previous.IsSized() && next.IsSized() && previous.area == next.area
  {
    DrawnCommands(previous, next, next)
  }

  /** Where column x of row y lies in a buffer's content, and back (`pos_of`). */
  function IndexOf(area: Rect, y: nat, x: nat): nat {
    y * area.width + x
  }

  function RowOf(area: Rect, idx: nat): nat {
    if area.width == 0 then 0 else idx / area.width
  }

  function ColumnOf(area: Rect, idx: nat): nat {
    if area.width == 0 then 0 else idx % area.width
  }

  lemma Position(area: Rect, y: nat, x: nat)
    requires x < area.width
    ensures RowOf(area, IndexOf(area, y, x)) == y && ColumnOf(area, IndexOf(area, y, x)) == x
  {
    var idx, width := IndexOf(area, y, x), area.width;
    var q, r := idx / width, idx % width;
    assert idx == q * width + r;
    assert q < y ==> (q + 1) * width <= y * width;
    assert q > y ==> (y + 1) * width <= q * width;
  }

  lemma NextPosition(area: Rect, y: nat, x: nat)
    requires y < area.height && x < area.width
    ensures IndexOf(area, y, x) < area.height * area.width
    ensures x + 1 < area.width ==> IndexOf(area, y, x + 1) == IndexOf(area, y, x) + 1
    ensures x + 1 == area.width ==> IndexOf(area, y + 1, 0) == IndexOf(area, y, x) + 1
    ensures IndexOf(area, y, x) + 1 < area.height * area.width <==> x + 1 < area.width || y + 1 < area.height
  {
    RowFits(y, area.height, area.width);
    if y + 1 < area.height {
      RowFits(y + 1, area.height, area.width);
    }
  }

  lemma CellAt(b: Buffer, y: nat, x: nat)
    requires b.IsSized() && y < b.area.height && x < b.area.width
    ensures IndexOf(b.area, y, x) < |b.content| && b.content[IndexOf(b.area, y, x)] == b.RowAt(y)[x]
  {
    RowFits(y, b.area.height, b.area.width);
  }

  /** The first loop of `diff_buffers` for one row: the walk over its symbols. */
  method ScanRow(row: Row, bg: Color) returns (lastNonblank: Option<nat>)
    ensures lastNonblank == LastNonblank(row, bg, 0, None)
  {
    lastNonblank := None;
    var column := 0;
    while column < |row|
      invariant LastNonblank(row, bg, column, lastNonblank) == LastNonblank(row, bg, 0, None)
      decreases |row| - column
    {
      var width := Width(row[column].symbol);
      if !IsBlank(row[column], bg) {
        lastNonblank := Some(column + width - 1);
      }
      column := column + width;
    }
  }

  /** The first loop of `diff_buffers`: clears, and how far puts may reach in each row. */
  method PlanClears(next: Buffer) returns (clears: seq<DrawCommand>, lastNonblankColumns: seq<nat>)
    requires next.IsWellFormed() && next.area.x == 0
    ensures clears == Clears(next, next.area.height)
    ensures |lastNonblankColumns| == next.area.height
    ensures forall r :: 0 <= r < next.area.height ==> lastNonblankColumns[r] == LastColumn(next.RowAt(r))
  {
    hide LastNonblank, IsBlank, RowOk, Buffer.RowAt, RowBackground;
    var area := next.area;
    clears, lastNonblankColumns := [], [];
    for y := 0 to area.height
      invariant clears == Clears(next, y)
      invariant |lastNonblankColumns| == y
      invariant forall r :: 0 <= r < y ==> lastNonblankColumns[r] == LastColumn(next.RowAt(r))
    {
      var row := next.RowAt(y);
      var bg := RowBackground(row);
      var lastNonblank := ScanRow(row, bg);
      var clearStart := match lastNonblank case None => 0 case Some(c) => c + 1;
      if clearStart < |row| {
        clears := clears + [ClearToEnd(area.x + clearStart, area.y + y, bg)];
      }
      lastNonblankColumns := lastNonblankColumns + [match lastNonblank case None => 0 case Some(c) => c];
    }
  }

  /** What `to_skip` and `invalidated` say at column x of row y. */
  ghost predicate Flags(previous: Buffer, next: Buffer, y: nat, x: nat, toSkip: nat, invalidated: nat)
    requires Comparable(previous, next)
  {
    if x == 0 then toSkip == 0 && invalidated == 0
    else
      && y < next.area.height && x < next.area.width
      && toSkip == (if IsCovered(next.RowAt(y), x) then 1 else 0)
      && invalidated == if IsCovered(next.RowAt(y), x) || IsCovered(previous.RowAt(y), x) then 1 else 0
  }

  lemma FlagsDecide(previous: Buffer, next: Buffer, y: nat, x: nat, toSkip: nat, invalidated: nat)
    requires Comparable(previous, next) && y < next.area.height && x < next.area.width
    requires Flags(previous, next, y, x, toSkip, invalidated)
    ensures var n, p := next.RowAt(y), previous.RowAt(y);
            NeedsPut(p, n, x) <==> (n[x] != p[x] || invalidated > 0) && toSkip == 0 && x <= LastColumn(n)
  {
    hide LastColumn, RowOk;
  }

  /** A wide symbol flags exactly the next column, and is never in the last one. */
  lemma FlagsStep(previous: Buffer, next: Buffer, y: nat, x: nat, invalidated: nat)
    requires Comparable(previous, next) && y < next.area.height && x < next.area.width && invalidated <= 1
    ensures var n, p := Width(next.RowAt(y)[x].symbol), Width(previous.RowAt(y)[x].symbol);
            var widest := if p > n then p else n;
            var wider := if widest > invalidated then widest else invalidated;
            if x + 1 < next.area.width then Flags(previous, next, y, x + 1, n - 1, wider - 1)
            else Flags(previous, next, y + 1, 0, n - 1, wider - 1)
  {
    assert RowOk(next.RowAt(y)) && RowOk(previous.RowAt(y));
  }

  /** The second loop of `diff_buffers`: one pass over all cells. */
  method PlanPuts(previous: Buffer, next: Buffer, lastNonblankColumns: seq<nat>) returns (puts: seq<DrawCommand>)
    requires Comparable(previous, next)
    requires |lastNonblankColumns| == next.area.height
    requires forall r :: 0 <= r < next.area.height ==> lastNonblankColumns[r] == LastColumn(next.RowAt(r))
    ensures puts == Puts(previous, next, next, next.area.height, 0)
  {
    hide LastColumn, NeedsPut, RowOk, Flags, Puts, IndexOf, RowOf, ColumnOf;
    var area := previous.area;
    puts := [];
    var invalidated: nat, toSkip: nat := 0, 0;
    ghost var y: nat, x: nat := if |next.content| == 0 then area.height else 0, 0;
    StartFlags(previous, next);
    for idx := 0 to |next.content|
      invariant idx == IndexOf(area, y, x)
      invariant if idx < |next.content| then y < area.height && x < area.width else y == area.height && x == 0
      invariant puts == Puts(previous, next, next, y, x)
      invariant Flags(previous, next, y, x, toSkip, invalidated) && invalidated <= 1
    {
      CellAt(next, y, x);
      CellAt(previous, y, x);
      Position(area, y, x);
      FlagsDecide(previous, next, y, x, toSkip, invalidated);
      FlagsStep(previous, next, y, x, invalidated);
      PutsStep(previous, next, y, x);
      var nextCell, previousCell := next.content[idx], previous.content[idx];
      if (nextCell != previousCell || invalidated > 0) && toSkip == 0 {
        var column, row := ColumnOf(area, idx), RowOf(area, idx);
        if column <= lastNonblankColumns[row] {
          puts := puts + [Put(area.x + column, area.y + row, nextCell)];
        }
      }
      toSkip := Width(nextCell.symbol) - 1;
      var affected := if Width(previousCell.symbol) > Width(nextCell.symbol) then Width(previousCell.symbol) else Width(nextCell.symbol);
      invalidated := (if affected > invalidated then affected else invalidated) - 1;
      NextPosition(area, y, x);
      y, x := if x + 1 < area.width then y else y + 1, if x + 1 < area.width then x + 1 else 0;
    }
  }

  lemma StartFlags(previous: Buffer, next: Buffer)
    requires Comparable(previous, next)
    ensures forall y :: Flags(previous, next, y, 0, 0, 0)
    ensures Puts(previous, next, next, 0, 0) == [] && IndexOf(next.area, 0, 0) == 0
    ensures |next.content| == 0 ==> IndexOf(next.area, next.area.height, 0) == 0
    ensures |next.content| == 0 ==> Puts(previous, next, next, next.area.height, 0) == []
    ensures |next.content| > 0 ==> next.area.height > 0 && next.area.width > 0
  {
    if |next.content| == 0 {
      NoPuts(previous, next, next.area.height);
    }
  }

  lemma PutsStep(previous: Buffer, next: Buffer, y: nat, x: nat)
    requires Comparable(previous, next) && y < next.area.height && x < next.area.width
    ensures var after := if x + 1 < next.area.width then Puts(previous, next, next, y, x + 1) else Puts(previous, next, next, y + 1, 0);
            after == Puts(previous, next, next, y, x) +
              if NeedsPut(previous.RowAt(y), next.RowAt(y), x) then [Put(x, next.area.y + y, next.RowAt(y)[x])] else []
  {
    hide NeedsPut;
  }

  lemma NoPuts(previous: Buffer, next: Buffer, y: nat)
    requires Comparable(previous, next) && next.area.height * next.area.width == 0 && y <= next.area.height
    ensures Puts(previous, next, next, y, 0) == []
    decreases y
  {
    if y > 0 {
      assert next.area.width == 0;
      NoPuts(previous, next, y - 1);
    }
  }

  /** `diff_buffers`. */
  method DiffBuffers(previous: Buffer, next: Buffer) returns (updates: seq<DrawCommand>)
    requires Comparable(previous, next)
    ensures updates == DiffCommands(previous, next)
  {
    var clears, lastNonblankColumns := PlanClears(next);
    var puts := PlanPuts(previous, next, lastNonblankColumns);
    return clears + puts;
  }

  // ----------------------------------------------------- commands on the screen

  type Grid = seq<Line>

  /** The effect of a command; commands off the screen have none. */
  function Apply(grid: Grid, command: DrawCommand, p: Palette): (r: Grid)
    ensures |r| == |grid| && forall y :: 0 <= y < |grid| ==> |r[y]| == |grid[y]|
  {
    match command
    case Put(x, y, cell) =>
      if y < |grid| && x + Width(cell.symbol) <= |grid[y]| then grid[y := Overwrite(grid[y], x, p.Drawn(cell))] else grid
    case ClearToEnd(x, y, bg) =>
      if y < |grid| && x < |grid[y]| then grid[y := ClearFrom(grid[y], x, p.bg(bg))] else grid
  }

  function ApplyAll(grid: Grid, commands: seq<DrawCommand>, p: Palette): (r: Grid)
    ensures |r| == |grid| && forall y :: 0 <= y < |grid| ==> |r[y]| == |grid[y]|
    decreases |commands|
  {
    if commands == [] then grid else ApplyAll(Apply(grid, commands[0], p), commands[1..], p)
  }

  lemma {:induction false} ApplyConcat(grid: Grid, a: seq<DrawCommand>, b: seq<DrawCommand>, p: Palette)
    ensures ApplyAll(grid, a + b, p) == ApplyAll(ApplyAll(grid, a, p), b, p)
    decreases |a|
  {
    hide Apply;
    if a == [] {
      assert a + b == b;
    } else {
      assert (a + b)[1..] == a[1..] + b;
      ApplyConcat(Apply(grid, a[0], p), a[1..], b, p);
    }
  }

  lemma ApplyOptional(grid: Grid, a: seq<DrawCommand>, b: seq<DrawCommand>, p: Palette)
    requires |b| <= 1
    ensures ApplyAll(grid, a + b, p) == if b == [] then ApplyAll(grid, a, p) else Apply(ApplyAll(grid, a, p), b[0], p)
  {
    hide Apply;
    ApplyConcat(grid, a, b, p);
    if b != [] { assert b[1..] == []; }
  }

  /** The grid has room for the area: its rows, exactly as wide as the screen. */
  ghost predicate Holds(grid: Grid, area: Rect) {
    && area.x == 0 && area.y + area.height <= |grid|
    && forall y :: area.y <= y < area.y + area.height ==> |grid[y]| == area.width
  }

  /** The rows of the screen under the buffer's area show the buffer. */
  ghost predicate ShowsBuffer(grid: Grid, b: Buffer, p: Palette)
    requires b.IsSized()
  {
    Holds(grid, b.area) && forall y :: 0 <= y < b.area.height ==> Shows(grid[b.area.y + y], b.RowAt(y), p)
  }

  /** The rows above y are cleared as the next frame wants, all others untouched. */
  ghost predicate ClearedTo(r: Grid, grid: Grid, next: Buffer, p: Palette, y: nat)
    requires next.IsSized() && Holds(grid, next.area) && y <= next.area.height
  {
    && |r| == |grid|
    && (forall i :: 0 <= i < y ==> r[next.area.y + i] == Cleared(grid[next.area.y + i], next.RowAt(i), p))
    && (forall i :: 0 <= i < |grid| && !(next.area.y <= i < next.area.y + y) ==> r[i] == grid[i])
  }

  lemma {:induction false} ClearsApplied(grid: Grid, next: Buffer, p: Palette, y: nat)
    requires next.IsWellFormed() && Holds(grid, next.area) && y <= next.area.height
    ensures ClearedTo(ApplyAll(grid, Clears(next, y), p), grid, next, p, y)
    decreases y
  {
    hide ClearedTo, ApplyAll, ClearOf;
    if y == 0 {
      ApplyNothing(grid, p);
      assert ClearedTo(grid, grid, next, p, 0) by { NothingCleared(grid, next, p); }
    } else {
      ClearsApplied(grid, next, p, y - 1);
      ClearStep(ApplyAll(grid, Clears(next, y - 1), p), grid, next, p, y - 1);
      ApplyOptional(grid, Clears(next, y - 1), ClearOf(next, y - 1), p);
    }
  }

  lemma NothingCleared(grid: Grid, next: Buffer, p: Palette)
    requires next.IsSized() && Holds(grid, next.area)
    ensures ClearedTo(grid, grid, next, p, 0)
  {
  }

  lemma ClearStep(r: Grid, grid: Grid, next: Buffer, p: Palette, y: nat)
    requires next.IsSized() && Holds(grid, next.area) && y < next.area.height && ClearedTo(r, grid, next, p, y)
    ensures |ClearOf(next, y)| <= 1
    ensures var clear := ClearOf(next, y);
            ClearedTo(if clear == [] then r else Apply(r, clear[0], p), grid, next, p, y + 1)
  {
    hide ClearStart, ClearFrom;
    assert r[next.area.y + y] == grid[next.area.y + y];
  }

  /** How far row i has been painted once the puts before (y, x) are out. */
  function Reached(i: nat, y: nat, x: nat, width: nat): nat {
    if i < y then width else if i == y then x else 0
  }

  /** drawn is what a screen that shows shown really shows after the difference between
      two frames was drawn on it. */
  ghost predicate IsDrawnOver(drawn: Buffer, shown: Buffer, previous: Buffer, next: Buffer)
    requires Comparable(previous, next)
  {
    && BufferMayLackBold(shown, previous) && BufferMayLackBold(drawn, next)
    && drawn.IsWellFormed() && shown.IsWellFormed()
    && forall y :: 0 <= y < next.area.height ==> IsDrawn(drawn.RowAt(y), shown.RowAt(y), previous.RowAt(y), next.RowAt(y))
  }

  /** What the puts are made of: frames of the same shape. */
  ghost predicate Drawing(previous: Buffer, next: Buffer, drawn: Buffer) {
    Comparable(previous, next) && drawn.area == next.area && drawn.IsWellFormed()
  }

  ghost predicate PaintedTo(r: Grid, grid: Grid, previous: Buffer, next: Buffer, drawn: Buffer, p: Palette, y: nat, x: nat)
    requires Drawing(previous, next, drawn) && Holds(grid, next.area) && y <= next.area.height && x <= next.area.width
  {
    && |r| == |grid|
    && (forall i :: 0 <= i < next.area.height ==>
          r[next.area.y + i] ==
          Painted(grid[next.area.y + i], previous.RowAt(i), next.RowAt(i), drawn.RowAt(i), p, Reached(i, y, x, next.area.width)))
    && (forall i :: 0 <= i < |grid| && !(next.area.y <= i < next.area.y + next.area.height) ==> r[i] == grid[i])
  }

  lemma PaintStep(r: Grid, grid: Grid, previous: Buffer, next: Buffer, drawn: Buffer, p: Palette, y: nat, x: nat)
    requires Drawing(previous, next, drawn) && Holds(grid, next.area) && y < next.area.height && x < next.area.width
    requires PaintedTo(r, grid, previous, next, drawn, p, y, x)
    ensures var put := PutOf(previous, next, drawn, y, x);
            PaintedTo(if put == [] then r else Apply(r, put[0], p), grid, previous, next, drawn, p, y, x + 1)
  {
    hide NeedsPut, Overwrite, Cleared;
    var put := PutOf(previous, next, drawn, y, x);
    assert RowOk(drawn.RowAt(y));
    PutFits(previous.RowAt(y), drawn.RowAt(y), x);
    var after := if put == [] then r else Apply(r, put[0], p);
    assert after[next.area.y + y] ==
           Painted(grid[next.area.y + y], previous.RowAt(y), next.RowAt(y), drawn.RowAt(y), p, x + 1);
  }

  lemma PutFits(previous: Row, next: Row, x: nat)
    requires RowOk(next) && x < |previous| == |next|
    ensures x + Width(next[x].symbol) <= |next|
  {
  }

  lemma {:induction false} PutsApplied(start: Grid, grid: Grid, previous: Buffer, next: Buffer, drawn: Buffer, p: Palette, y: nat, x: nat)
    requires Drawing(previous, next, drawn) && Holds(grid, next.area)
    requires y <= next.area.height && x <= next.area.width && (y == next.area.height ==> x == 0)
    requires PaintedTo(start, grid, previous, next, drawn, p, 0, 0)
    ensures PaintedTo(ApplyAll(start, Puts(previous, next, drawn, y, x), p), grid, previous, next, drawn, p, y, x)
    decreases y, x, 1
  {
    hide PaintedTo, ApplyAll, PutOf;
    if x > 0 {
      PutsApplied(start, grid, previous, next, drawn, p, y, x - 1);
      PaintStep(ApplyAll(start, Puts(previous, next, drawn, y, x - 1), p), grid, previous, next, drawn, p, y, x - 1);
      PutOfSize(previous, next, drawn, y, x - 1);
      ApplyOptional(start, Puts(previous, next, drawn, y, x - 1), PutOf(previous, next, drawn, y, x - 1), p);
    } else if y > 0 {
      PutsAppliedRow(start, grid, previous, next, drawn, p, y);
    } else {
      assert ApplyAll(start, [], p) == start by { ApplyNothing(start, p); }
    }
  }

  /** The end of one row is the start of the next. */
  lemma {:induction false} PutsAppliedRow(start: Grid, grid: Grid, previous: Buffer, next: Buffer, drawn: Buffer, p: Palette, y: nat)
    requires Drawing(previous, next, drawn) && Holds(grid, next.area) && 0 < y <= next.area.height
    requires PaintedTo(start, grid, previous, next, drawn, p, 0, 0)
    ensures PaintedTo(ApplyAll(start, Puts(previous, next, drawn, y, 0), p), grid, previous, next, drawn, p, y, 0)
    decreases y, 0, 0
  {
    hide ApplyAll, Painted;
    PutsApplied(start, grid, previous, next, drawn, p, y - 1, next.area.width);
  }

  lemma PutOfSize(previous: Buffer, next: Buffer, drawn: Buffer, y: nat, x: nat)
    requires Drawing(previous, next, drawn) && y < next.area.height && x < next.area.width
    ensures |PutOf(previous, next, drawn, y, x)| <= 1
  {
  }

  lemma ApplyNothing(grid: Grid, p: Palette)
    ensures ApplyAll(grid, [], p) == grid
  {
  }

  lemma ClearedIsPaintedToStart(r: Grid, grid: Grid, previous: Buffer, next: Buffer, drawn: Buffer, p: Palette)
    requires Drawing(previous, next, drawn) && Holds(grid, next.area) && ClearedTo(r, grid, next, p, next.area.height)
    ensures PaintedTo(r, grid, previous, next, drawn, p, 0, 0)
  {
    hide Cleared;
  }

  /** Whatever bold the screen lacks and however much more is lost: it shows what was
      really drawn, and no row outside the frame is touched. */
  lemma DiffShowsDrawn(grid: Grid, shown: Buffer, previous: Buffer, next: Buffer, drawn: Buffer, p: Palette)
    requires Comparable(previous, next) && IsDrawnOver(drawn, shown, previous, next) && ShowsBuffer(grid, shown, p)
    ensures var r := ApplyAll(grid, DrawnCommands(previous, next, drawn), p);
            && ShowsBuffer(r, drawn, p)
            && |r| == |grid|
            && forall i :: 0 <= i < |grid| && !(next.area.y <= i < next.area.y + next.area.height) ==> r[i] == grid[i]
  {
    hide Clears, Puts, ClearedTo, Cleared, ApplyAll, IsDrawn, Shows, RowOk, Painted;
    var area := next.area;
    var cleared := ApplyAll(grid, Clears(next, area.height), p);
    ClearsApplied(grid, next, p, area.height);
    ClearedIsPaintedToStart(cleared, grid, previous, next, drawn, p);
    PutsApplied(cleared, grid, previous, next, drawn, p, area.height, 0);
    ApplyConcat(grid, Clears(next, area.height), Puts(previous, next, drawn, area.height, 0), p);
    var r := ApplyAll(grid, DrawnCommands(previous, next, drawn), p);
    forall y | 0 <= y < area.height ensures Shows(r[area.y + y], drawn.RowAt(y), p) {
      PaintedShowsDrawn(grid[area.y + y], shown.RowAt(y), previous.RowAt(y), next.RowAt(y), drawn.RowAt(y), p);
    }
  }

  /** The renderer's promise: on a screen that shows the previous frame, its commands
      make the screen show the next frame, and touch no row outside the frame. */
  lemma DiffShowsNext(grid: Grid, previous: Buffer, next: Buffer, p: Palette)
    requires Comparable(previous, next) && ShowsBuffer(grid, previous, p)
    ensures var r := ApplyAll(grid, DiffCommands(previous, next), p);
            && ShowsBuffer(r, next, p)
            && |r| == |grid|
            && forall i :: 0 <= i < |grid| && !(next.area.y <= i < next.area.y + next.area.height) ==> r[i] == grid[i]
  {
    hide DrawnCommands, ApplyAll, IsDrawn, ShowsBuffer, RowOk;
    LacksNothing(previous);
    LacksNothing(next);
    forall y | 0 <= y < next.area.height ensures IsDrawn(next.RowAt(y), previous.RowAt(y), previous.RowAt(y), next.RowAt(y)) {
      NextIsDrawn(previous.RowAt(y), next.RowAt(y));
    }
    DiffShowsDrawn(grid, previous, previous, next, next, p);
  }
}
