/**
 Flushing a frame: the writer's shortcuts are right for every list the diff renderer
 sends, and the screen then shows the frame exactly when no put loses its bold.
 */
module FrameFlush {
  import opened Wrappers
  import opened Cells
  import opened Screen
  import opened DiffRenderer
  import opened Tty
  import opened DrawUpdates

  // ------------------------------------------------- what the diff renderer sends

  ghost predicate IsClearIn(c: DrawCommand, next: Buffer)
    requires next.IsSized()
  {
    exists y :: 0 <= y < next.area.height && ClearStart(next.RowAt(y)) < next.area.width
             && c == ClearToEnd(ClearStart(next.RowAt(y)), next.area.y + y, RowBackground(next.RowAt(y)))
  }

  ghost predicate IsPutAt(c: DrawCommand, previous: Buffer, next: Buffer, y: nat, x: nat)
    requires Comparable(previous, next)
  {
    && y < next.area.height && x < next.area.width && NeedsPut(previous.RowAt(y), next.RowAt(y), x)
    && c == Put(x, next.area.y + y, next.RowAt(y)[x])
  }

  ghost predicate IsPutIn(c: DrawCommand, previous: Buffer, next: Buffer)
    requires Comparable(previous, next)
  {
    exists y: nat, x: nat :: IsPutAt(c, previous, next, y, x)
  }

  lemma {:induction false} ClearsAre(next: Buffer, y: nat, c: DrawCommand)
    requires next.IsSized() && y <= next.area.height && c in Clears(next, y)
    ensures IsClearIn(c, next)
    decreases y
  {
    hide ClearStart, RowBackground;
    if y > 0 && c in Clears(next, y - 1) {
      ClearsAre(next, y - 1, c);
    }
  }

  lemma {:induction false} PutsAre(previous: Buffer, next: Buffer, y: nat, x: nat, c: DrawCommand)
    requires Comparable(previous, next)
    requires y <= next.area.height && x <= next.area.width && (y == next.area.height ==> x == 0)
    requires c in Puts(previous, next, next, y, x)
    ensures IsPutIn(c, previous, next)
    decreases y, x
  {
    hide NeedsPut, IsPutIn;
    if x > 0 {
      if c in Puts(previous, next, next, y, x - 1) {
        PutsAre(previous, next, y, x - 1, c);
      } else {
        assert IsPutAt(c, previous, next, y, x - 1);
        PutWitness(c, previous, next, y, x - 1);
      }
    } else if y > 0 {
      PutsAre(previous, next, y - 1, next.area.width, c);
    }
  }

  lemma PutWitness(c: DrawCommand, previous: Buffer, next: Buffer, y: nat, x: nat)
    requires Comparable(previous, next) && IsPutAt(c, previous, next, y, x)
    ensures IsPutIn(c, previous, next)
  {
  }

  /** A put never lands right behind its row's clear, nor behind a wide put. */
  lemma PairsMayFollow(previous: Buffer, next: Buffer, a: DrawCommand, b: DrawCommand)
    requires Comparable(previous, next)
    requires IsClearIn(a, next) || IsPutIn(a, previous, next)
    requires IsPutIn(b, previous, next) || (IsClearIn(a, next) && IsClearIn(b, next))
    ensures MayFollow(a, b)
  {
    hide LastVisible;
    if IsPutIn(b, previous, next) {
      var y: nat, x: nat :| IsPutAt(b, previous, next, y, x);
      var row := next.RowAt(y);
      assert RowOk(row);
      VisibleBounds(row);
      if IsPutIn(a, previous, next) {
        var y', x' : nat :| IsPutAt(a, previous, next, y', x');
      }
    }
  }

  /** Clears first, then puts, each of them one the two frames call for. */
  lemma DiffIs(previous: Buffer, next: Buffer, i: nat)
    requires Comparable(previous, next) && i < |DiffCommands(previous, next)|
    ensures var c, n := DiffCommands(previous, next)[i], |Clears(next, next.area.height)|;
            if i < n then c.ClearToEnd? && IsClearIn(c, next) else c.Put? && IsPutIn(c, previous, next)
  {
    hide Clears, Puts, ClearStart, NeedsPut;
    var clears := Clears(next, next.area.height);
    var c := DiffCommands(previous, next)[i];
    if i < |clears| {
      ClearsAre(next, next.area.height, c);
    } else {
      PutsAre(previous, next, next.area.height, 0, c);
    }
  }

  lemma DiffIsOrderly(previous: Buffer, next: Buffer, height: nat)
    requires Comparable(previous, next) && next.area.y + next.area.height <= height
    ensures Orderly(DiffCommands(previous, next))
    ensures AllFit(DiffCommands(previous, next), next.area.width, height)
  {
    hide DiffCommands, Clears, MayFollow, IsClearIn, IsPutIn, Fits;
    var all := DiffCommands(previous, next);
    forall i | 0 < i < |all| ensures MayFollow(all[i - 1], all[i]) {
      DiffIs(previous, next, i - 1);
      DiffIs(previous, next, i);
      PairsMayFollow(previous, next, all[i - 1], all[i]);
    }
    forall c | c in all ensures Fits(c, next.area.width, height) {
      var i :| 0 <= i < |all| && all[i] == c;
      DiffIs(previous, next, i);
      DiffFits(previous, next, c, height);
    }
  }

  lemma DiffFits(previous: Buffer, next: Buffer, c: DrawCommand, height: nat)
    requires Comparable(previous, next) && next.area.y + next.area.height <= height
    requires IsClearIn(c, next) || IsPutIn(c, previous, next)
    ensures Fits(c, next.area.width, height) && next.area.y <= c.y
  {
    hide NeedsPut, ClearStart;
    if IsPutIn(c, previous, next) {
      var y: nat, x: nat :| IsPutAt(c, previous, next, y, x);
      assert RowOk(next.RowAt(y));
    }
  }

  /** For any two frames: every put is printed with the cursor at its own position and
      in its own colours, although most moves and colour changes are left out. */
  lemma EveryPutInPlace(t: Terminal, previous: Buffer, next: Buffer, p: Palette, i: nat) returns (before: seq<Op>, after: seq<Op>)
    requires t.Ok() && t.IsPlain() && Comparable(previous, next)
    requires next.area.width == t.width && next.area.y + next.area.height <= |t.grid|
    requires i < |DiffCommands(previous, next)| && DiffCommands(previous, next)[i].Put?
    ensures var put := DiffCommands(previous, next)[i];
            var u := ExecAll(t, before);
            && Written(FRESH_PEN, DiffCommands(previous, next), p) == before + [Print(put.cell.symbol)] + after
            && u.x == put.x && u.y == put.y && u.fg == p.fg(put.cell.fg) && u.bg == p.bg(put.cell.bg)
  {
    hide ExecAll, Written, DiffCommands, Orderly, AllFit, Behind;
    DiffIsOrderly(previous, next, |t.grid|);
    PlainIsBehind(t);
    before, after := PutInPlace(t, FRESH_PEN, None, DiffCommands(previous, next), p, false, i);
  }

  // ----------------------------------------------------------------- what is lost

  /** The attributes the writer believes in, and whether the terminal is really bold. */
  datatype Ink = Ink(modifier: Modifier, bold: bool)

  const FRESH_INK := Ink(PLAIN, false)

  function NextInk(ink: Ink, m: Modifier): Ink {
    Ink(m, BoldAfter(ink.bold, ink.modifier, m))
  }

  function InkAfter(commands: seq<DrawCommand>, ink: Ink): Ink
    decreases |commands|
  {
    if commands == [] then ink else InkAfter(commands[1..], NextInk(ink, ModifierOf(commands[0])))
  }

  /** The ink when column x of row y comes: every put before it in reading order has
      changed it. */
  function InkBefore(previous: Buffer, next: Buffer, y: nat, x: nat): Ink
    requires previous.IsSized() && next.IsSized() && previous.area == next.area
    requires y <= next.area.height && x <= next.area.width && (y == next.area.height ==> x == 0)
    decreases y, x
  {
    if x > 0 then
      var ink := InkBefore(previous, next, y, x - 1);
      if NeedsPut(previous.RowAt(y), next.RowAt(y), x - 1) then NextInk(ink, next.RowAt(y)[x - 1].modifier) else ink
    else if y > 0 then InkBefore(previous, next, y - 1, next.area.width)
    else FRESH_INK
  }

  function WithBold(cell: Cell, bold: bool): Cell {
    cell.(modifier := cell.modifier.(bold := bold))
  }

  /** The cell the screen really shows at column x of row y: what was put there, perhaps
      without its bold; what the next frame has where it is cleared or covered; and
      elsewhere what was shown before. */
  function RealCell(shown: Buffer, previous: Buffer, next: Buffer, y: nat, x: nat): Cell
    requires shown.IsSized() && previous.IsSized() && next.IsSized() && shown.area == previous.area == next.area
    requires y < next.area.height && x < next.area.width
  {
    var row := next.RowAt(y);
    if NeedsPut(previous.RowAt(y), row, x) then
      WithBold(row[x], NextInk(InkBefore(previous, next, y, x), row[x].modifier).bold)
    else if IsCovered(row, x) || x >= ClearStart(row) then row[x]
    else shown.RowAt(y)[x]
  }

  lemma InRange(area: Rect, idx: nat)
    requires idx < area.height * area.width
    ensures RowOf(area, idx) < area.height && ColumnOf(area, idx) < area.width
    ensures IndexOf(area, RowOf(area, idx), ColumnOf(area, idx)) == idx
  {
    var q, r := idx / area.width, idx % area.width;
    assert idx == q * area.width + r;
    assert q >= area.height ==> q * area.width >= area.height * area.width;
  }

  /** What a screen that shows shown really shows once next was drawn over previous. */
  function RealBuffer(shown: Buffer, previous: Buffer, next: Buffer): (drawn: Buffer)
    requires shown.IsSized() && previous.IsSized() && next.IsSized() && shown.area == previous.area == next.area
    ensures drawn.IsSized() && drawn.area == next.area
  {
    Buffer(next.area, seq(|next.content|, i requires 0 <= i < |next.content| =>
      InRange(next.area, i);
      RealCell(shown, previous, next, RowOf(next.area, i), ColumnOf(next.area, i))))
  }

  lemma RealAt(shown: Buffer, previous: Buffer, next: Buffer, y: nat, x: nat)
    requires shown.IsSized() && previous.IsSized() && next.IsSized() && shown.area == previous.area == next.area
    requires y < next.area.height && x < next.area.width
    ensures RealBuffer(shown, previous, next).RowAt(y)[x] == RealCell(shown, previous, next, y, x)
  {
    hide RealCell, IndexOf, RowOf, ColumnOf, Buffer.RowAt;
    var drawn := RealBuffer(shown, previous, next);
    CellAt(drawn, y, x);
    Position(next.area, y, x);
  }

  lemma PutLacks(shown: Buffer, previous: Buffer, next: Buffer, y: nat, x: nat)
    requires shown.IsSized() && previous.IsSized() && next.IsSized() && shown.area == previous.area == next.area
    requires y < next.area.height && x < next.area.width && NeedsPut(previous.RowAt(y), next.RowAt(y), x)
    ensures MayLackBold(RealCell(shown, previous, next, y, x), next.RowAt(y)[x])
  {
    hide NeedsPut, InkBefore, Buffer.RowAt, KeepsIntensity;
  }

  lemma RealCellLacks(shown: Buffer, previous: Buffer, next: Buffer, y: nat, x: nat)
    requires Comparable(previous, next) && BufferMayLackBold(shown, previous) && shown.IsSized()
    requires y < next.area.height && x < next.area.width
    ensures MayLackBold(RealCell(shown, previous, next, y, x), next.RowAt(y)[x])
  {
    hide RealCell, NeedsPut, ClearStart, RowOk, Buffer.RowAt, BufferMayLackBold;
    LackingSized(shown, previous);
    if NeedsPut(previous.RowAt(y), next.RowAt(y), x) {
      PutLacks(shown, previous, next, y, x);
    } else {
      assert RowOk(next.RowAt(y));
      NotPutCell(shown, previous, next, y, x);
      NotPutIsSame(previous.RowAt(y), next.RowAt(y), x);
      LackingRow(shown, previous, y);
      assert MayLackBold(shown.RowAt(y)[x], previous.RowAt(y)[x]);
    }
  }

  lemma RealIsDrawnOver(shown: Buffer, previous: Buffer, next: Buffer)
    requires Comparable(previous, next) && BufferMayLackBold(shown, previous) && shown.IsSized()
    ensures IsDrawnOver(RealBuffer(shown, previous, next), shown, previous, next)
  {
    hide RealCell, MayLackBold, Buffer.RowAt, RowOk, IndexOf, RowOf, ColumnOf, NeedsPut, ClearStart;
    var drawn := RealBuffer(shown, previous, next);
    forall i | 0 <= i < |next.content| ensures MayLackBold(drawn.content[i], next.content[i]) {
      InRange(next.area, i);
      CellAt(next, RowOf(next.area, i), ColumnOf(next.area, i));
      RealCellLacks(shown, previous, next, RowOf(next.area, i), ColumnOf(next.area, i));
    }
    LackingIsWellFormed(shown, previous);
    LackingIsWellFormed(drawn, next);
    forall y | 0 <= y < next.area.height ensures IsDrawn(drawn.RowAt(y), shown.RowAt(y), previous.RowAt(y), next.RowAt(y)) {
      LackingRow(shown, previous, y);
      LackingRow(drawn, next, y);
      forall x | 0 <= x < next.area.width && !NeedsPut(previous.RowAt(y), next.RowAt(y), x)
        ensures drawn.RowAt(y)[x] ==
                if IsCovered(next.RowAt(y), x) || x >= ClearStart(next.RowAt(y)) then next.RowAt(y)[x] else shown.RowAt(y)[x]
      {
        RealAt(shown, previous, next, y, x);
        NotPutCell(shown, previous, next, y, x);
      }
    }
  }

  lemma NotPutCell(shown: Buffer, previous: Buffer, next: Buffer, y: nat, x: nat)
    requires shown.IsSized() && previous.IsSized() && next.IsSized() && shown.area == previous.area == next.area
    requires y < next.area.height && x < next.area.width && !NeedsPut(previous.RowAt(y), next.RowAt(y), x)
    ensures var row := next.RowAt(y);
            RealCell(shown, previous, next, y, x) ==
            if IsCovered(row, x) || x >= ClearStart(row) then row[x] else shown.RowAt(y)[x]
  {
  }

  // ------------------------------------------------------ the faded list is that of RealBuffer

  lemma {:induction false} FadedConcat(a: seq<DrawCommand>, b: seq<DrawCommand>, ink: Ink)
    ensures FadedAll(a + b, ink.modifier, ink.bold) ==
            FadedAll(a, ink.modifier, ink.bold) + FadedAll(b, InkAfter(a, ink).modifier, InkAfter(a, ink).bold)
    ensures InkAfter(a + b, ink) == InkAfter(b, InkAfter(a, ink))
    decreases |a|
  {
    hide Faded, BoldAfter;
    if a == [] {
      assert a + b == b;
    } else {
      assert (a + b)[1..] == a[1..] + b;
      FadedConcat(a[1..], b, NextInk(ink, ModifierOf(a[0])));
    }
  }

  lemma FadedOne(c: DrawCommand, ink: Ink)
    ensures FadedAll([c], ink.modifier, ink.bold) == [Faded(c, ink.modifier, ink.bold)]
    ensures InkAfter([c], ink) == NextInk(ink, ModifierOf(c))
  {
    assert [c][1..] == [];
  }

  lemma {:induction false} ClearsFade(next: Buffer, y: nat)
    requires next.IsSized() && y <= next.area.height
    ensures FadedAll(Clears(next, y), PLAIN, false) == Clears(next, y) && InkAfter(Clears(next, y), FRESH_INK) == FRESH_INK
    decreases y
  {
    hide ClearStart, RowBackground;
    if y > 0 {
      ClearsFade(next, y - 1);
      FadedConcat(Clears(next, y - 1), ClearOf(next, y - 1), FRESH_INK);
      if ClearOf(next, y - 1) != [] {
        FadedOne(ClearOf(next, y - 1)[0], FRESH_INK);
      }
    }
  }

  lemma {:induction false} PutsFade(shown: Buffer, previous: Buffer, next: Buffer, y: nat, x: nat)
    requires shown.IsSized() && previous.IsSized() && next.IsSized() && shown.area == previous.area == next.area
    requires y <= next.area.height && x <= next.area.width && (y == next.area.height ==> x == 0)
    ensures FadedAll(Puts(previous, next, next, y, x), PLAIN, false) == Puts(previous, next, RealBuffer(shown, previous, next), y, x)
    ensures InkAfter(Puts(previous, next, next, y, x), FRESH_INK) == InkBefore(previous, next, y, x)
    decreases y, x
  {
    hide NeedsPut, RealBuffer, NextInk, Buffer.RowAt, FadedAll, InkAfter;
    if x > 0 {
      PutsFade(shown, previous, next, y, x - 1);
      FadedConcat(Puts(previous, next, next, y, x - 1), PutOf(previous, next, next, y, x - 1), FRESH_INK);
      PutFades(shown, previous, next, y, x - 1);
    } else if y > 0 {
      PutsFade(shown, previous, next, y - 1, next.area.width);
    } else {
      NothingFades();
    }
  }

  lemma NothingFades()
    ensures FadedAll([], PLAIN, false) == [] && InkAfter([], FRESH_INK) == FRESH_INK
  {
  }

  lemma PutFades(shown: Buffer, previous: Buffer, next: Buffer, y: nat, x: nat)
    requires shown.IsSized() && previous.IsSized() && next.IsSized() && shown.area == previous.area == next.area
    requires y < next.area.height && x < next.area.width
    ensures var put, ink := PutOf(previous, next, next, y, x), InkBefore(previous, next, y, x);
            && FadedAll(put, ink.modifier, ink.bold) == PutOf(previous, next, RealBuffer(shown, previous, next), y, x)
            && InkAfter(put, ink) == InkBefore(previous, next, y, x + 1)
  {
    hide NeedsPut, RealBuffer, RealCell, BoldAfter, Buffer.RowAt;
    var put, ink := PutOf(previous, next, next, y, x), InkBefore(previous, next, y, x);
    if put != [] {
      FadedOne(put[0], ink);
      RealAt(shown, previous, next, y, x);
      PutCell(shown, previous, next, y, x);
    }
  }

  lemma PutCell(shown: Buffer, previous: Buffer, next: Buffer, y: nat, x: nat)
    requires shown.IsSized() && previous.IsSized() && next.IsSized() && shown.area == previous.area == next.area
    requires y < next.area.height && x < next.area.width && NeedsPut(previous.RowAt(y), next.RowAt(y), x)
    ensures var ink, cell := InkBefore(previous, next, y, x), next.RowAt(y)[x];
            Faded(Put(x, next.area.y + y, cell), ink.modifier, ink.bold) == Put(x, next.area.y + y, RealCell(shown, previous, next, y, x))
  {
    hide NeedsPut, InkBefore, BoldAfter;
  }

  lemma DiffFades(shown: Buffer, previous: Buffer, next: Buffer)
    requires shown.IsSized() && previous.IsSized() && next.IsSized() && shown.area == previous.area == next.area
    ensures FadedAll(DiffCommands(previous, next), PLAIN, false) == DrawnCommands(previous, next, RealBuffer(shown, previous, next))
  {
    hide RealBuffer, Clears, Puts, FadedAll, InkAfter;
    var height := next.area.height;
    ClearsFade(next, height);
    PutsFade(shown, previous, next, height, 0);
    FadedConcat(Clears(next, height), Puts(previous, next, next, height, 0), FRESH_INK);
  }

  /** Flushing a frame, whatever was lost before and whatever it loses itself: the screen
      shows what RealBuffer says, which is the frame, perhaps without some of its bold. */
  lemma FlushShowsReal(t: Terminal, shown: Buffer, previous: Buffer, next: Buffer, p: Palette)
    requires t.Ok() && t.IsPlain() && Comparable(previous, next) && BufferMayLackBold(shown, previous) && shown.IsSized()
    requires next.area.width == t.width && ShowsBuffer(t.grid, shown, p)
    ensures var r := ExecAll(t, Written(FRESH_PEN, DiffCommands(previous, next), p) + FINISH);
            var drawn := RealBuffer(shown, previous, next);
            && r.IsPlain() && r.top == t.top && r.bottom == t.bottom
            && BufferMayLackBold(drawn, next) && drawn.IsWellFormed()
            && ShowsBuffer(r.grid, drawn, p)
            && (ShowsBuffer(r.grid, next, p) <==> drawn == next)
            && forall i :: 0 <= i < |t.grid| && !(next.area.y <= i < next.area.y + next.area.height) ==> r.grid[i] == t.grid[i]
  {
    hide ExecAll, Written, ApplyAll, DiffCommands, DrawnCommands, FadedAll, ShowsBuffer, Orderly, AllFit, FINISH, RealBuffer, IsDrawn, RowOk;
    ShownIsHeld(t.grid, shown, p);
    DiffIsOrderly(previous, next, |t.grid|);
    UpdatesSound(t, DiffCommands(previous, next), p);
    DiffFades(shown, previous, next);
    RealIsDrawnOver(shown, previous, next);
    var drawn := RealBuffer(shown, previous, next);
    DiffShowsDrawn(t.grid, shown, previous, next, drawn, p);
    ShownExactly(ApplyAll(t.grid, DrawnCommands(previous, next, drawn), p), shown, previous, next, drawn, p);
  }

  lemma ShownIsHeld(grid: Grid, shown: Buffer, p: Palette)
    requires shown.IsSized() && ShowsBuffer(grid, shown, p)
    ensures Holds(grid, shown.area)
  {
  }

  // ------------------------------------------------------------ when a frame is shown

  lemma RowShownExactly(line: Line, shown: Row, previous: Row, next: Row, drawn: Row, p: Palette)
    requires Shows(line, drawn, p) && IsDrawn(drawn, shown, previous, next)
    ensures Shows(line, next, p) <==> drawn == next
  {
    hide LastVisible;
    LackingRowOk(drawn, next);
    if Shows(line, next, p) {
      forall c | 0 <= c < |next| ensures drawn[c] == next[c] {
        assert Displays(line, drawn, p, c) && Displays(line, next, p, c);
        assert MayLackBold(drawn[c], next[c]);
      }
    }
  }

  /** A screen that shows the drawn cells shows the frame exactly when they are the same. */
  lemma ShownExactly(grid: Grid, shown: Buffer, previous: Buffer, next: Buffer, drawn: Buffer, p: Palette)
    requires Comparable(previous, next) && IsDrawnOver(drawn, shown, previous, next) && ShowsBuffer(grid, drawn, p)
    ensures ShowsBuffer(grid, next, p) <==> drawn == next
  {
    hide Shows, IsDrawn, RowOk, Buffer.RowAt, BufferMayLackBold;
    LackingSized(drawn, next);
    LackingSized(shown, previous);
    forall y | 0 <= y < next.area.height
      ensures Shows(grid[next.area.y + y], next.RowAt(y), p) <==> drawn.RowAt(y) == next.RowAt(y)
    {
      assert Shows(grid[drawn.area.y + y], drawn.RowAt(y), p);
      RowShownExactly(grid[next.area.y + y], shown.RowAt(y), previous.RowAt(y), next.RowAt(y), drawn.RowAt(y), p);
    }
    SameRows(drawn, next);
  }

  lemma SameRows(a: Buffer, b: Buffer)
    requires a.IsSized() && b.IsSized() && a.area == b.area
    ensures a == b <==> forall y :: 0 <= y < b.area.height ==> a.RowAt(y) == b.RowAt(y)
  {
    hide Buffer.RowAt, IndexOf, RowOf, ColumnOf;
    if forall y :: 0 <= y < b.area.height ==> a.RowAt(y) == b.RowAt(y) {
      forall i | 0 <= i < |b.content| ensures a.content[i] == b.content[i] {
        InRange(b.area, i);
        CellAt(a, RowOf(b.area, i), ColumnOf(b.area, i));
        CellAt(b, RowOf(b.area, i), ColumnOf(b.area, i));
      }
    }
  }

  /** On a screen that lacks nothing the next frame is shown exactly when no put drops dim
      alone from the bold and dim put before it. */
  lemma KeepsBoldExactly(previous: Buffer, next: Buffer)
    requires Comparable(previous, next)
    ensures RealBuffer(previous, previous, next) == next <==> KeepsBold(DiffCommands(previous, next))
  {
    hide RealBuffer, FadedAll, KeepsBold, Clears, Puts, BufferMayLackBold;
    var drawn := RealBuffer(previous, previous, next);
    var height := next.area.height;
    DiffFades(previous, previous, next);
    FadedExactly(DiffCommands(previous, next), PLAIN);
    if DrawnCommands(previous, next, drawn) == DiffCommands(previous, next) {
      SameTail(Clears(next, height), Puts(previous, next, drawn, height, 0), Puts(previous, next, next, height, 0));
      SamePuts(previous, next, drawn, height, 0);
      RealIsNext(previous, next);
    }
  }

  lemma SameTail<T>(a: seq<T>, b: seq<T>, c: seq<T>)
    requires a + b == a + c
    ensures b == c
  {
    assert (a + b)[|a|..] == b && (a + c)[|a|..] == c;
  }

  /** Equal puts carry equal cells. */
  ghost predicate SameBefore(previous: Buffer, next: Buffer, drawn: Buffer, y: nat, x: nat)
    requires previous.IsSized() && next.IsSized() && drawn.IsSized() && previous.area == next.area == drawn.area
    requires y <= next.area.height && x <= next.area.width && (y == next.area.height ==> x == 0)
  {
    forall i, c | 0 <= i < next.area.height && 0 <= c < next.area.width && (i < y || (i == y && c < x)) ::
      NeedsPut(previous.RowAt(i), next.RowAt(i), c) ==> drawn.RowAt(i)[c] == next.RowAt(i)[c]
  }

  lemma {:induction false} SamePuts(previous: Buffer, next: Buffer, drawn: Buffer, y: nat, x: nat)
    requires previous.IsSized() && next.IsSized() && drawn.IsSized() && previous.area == next.area == drawn.area
    requires y <= next.area.height && x <= next.area.width && (y == next.area.height ==> x == 0)
    requires Puts(previous, next, drawn, y, x) == Puts(previous, next, next, y, x)
    ensures SameBefore(previous, next, drawn, y, x)
    decreases y, x
  {
    hide NeedsPut, Buffer.RowAt;
    if x > 0 {
      var a, b := Puts(previous, next, drawn, y, x - 1), Puts(previous, next, next, y, x - 1);
      PutsSize(previous, next, drawn, y, x - 1);
      var m, n := PutOf(previous, next, drawn, y, x - 1), PutOf(previous, next, next, y, x - 1);
      assert (a + m)[..|a|] == a && (b + n)[..|b|] == b && (a + m)[|a|..] == m && (b + n)[|b|..] == n;
      SamePuts(previous, next, drawn, y, x - 1);
    } else if y > 0 {
      SamePuts(previous, next, drawn, y - 1, next.area.width);
    }
  }

  lemma {:induction false} PutsSize(previous: Buffer, next: Buffer, drawn: Buffer, y: nat, x: nat)
    requires previous.IsSized() && next.IsSized() && drawn.IsSized() && previous.area == next.area == drawn.area
    requires y <= next.area.height && x <= next.area.width && (y == next.area.height ==> x == 0)
    ensures |Puts(previous, next, drawn, y, x)| == |Puts(previous, next, next, y, x)|
    decreases y, x
  {
    hide NeedsPut, Buffer.RowAt;
    if x > 0 {
      PutsSize(previous, next, drawn, y, x - 1);
    } else if y > 0 {
      PutsSize(previous, next, drawn, y - 1, next.area.width);
    }
  }

  /** What is not put was already right. */
  lemma RealIsNext(previous: Buffer, next: Buffer)
    requires Comparable(previous, next)
    requires SameBefore(previous, next, RealBuffer(previous, previous, next), next.area.height, 0)
    ensures RealBuffer(previous, previous, next) == next
  {
    hide RealBuffer, RealCell, Buffer.RowAt, RowOk, NeedsPut;
    var drawn := RealBuffer(previous, previous, next);
    forall y | 0 <= y < next.area.height ensures drawn.RowAt(y) == next.RowAt(y) {
      forall x | 0 <= x < next.area.width ensures drawn.RowAt(y)[x] == next.RowAt(y)[x] {
        if !NeedsPut(previous.RowAt(y), next.RowAt(y), x) {
          RealAt(previous, previous, next, y, x);
          NotPutCell(previous, previous, next, y, x);
          assert RowOk(next.RowAt(y));
          NotPutIsSame(previous.RowAt(y), next.RowAt(y), x);
        }
      }
    }
    SameRows(drawn, next);
  }

  lemma NotPutIsSame(previous: Row, next: Row, x: nat)
    requires x < |previous| == |next| && RowOk(next) && !NeedsPut(previous, next, x)
    ensures IsCovered(next, x) || x >= ClearStart(next) || previous[x] == next[x]
  {
    VisibleBounds(next);
  }

  /** Flushing a frame, whatever it holds: on a plain terminal that shows the previous
      frame, what is written makes it show the next one exactly when no put drops dim
      alone from the bold and dim put before it; no row outside the frame changes. */
  lemma FlushShowsNext(t: Terminal, previous: Buffer, next: Buffer, p: Palette)
    requires t.Ok() && t.IsPlain() && Comparable(previous, next)
    requires next.area.width == t.width && ShowsBuffer(t.grid, previous, p)
    ensures var r := ExecAll(t, Written(FRESH_PEN, DiffCommands(previous, next), p) + FINISH);
            && r.IsPlain() && r.top == t.top && r.bottom == t.bottom
            && (ShowsBuffer(r.grid, next, p) <==> KeepsBold(DiffCommands(previous, next)))
            && forall i :: 0 <= i < |t.grid| && !(next.area.y <= i < next.area.y + next.area.height) ==> r.grid[i] == t.grid[i]
  {
    hide ExecAll, Written, DiffCommands, KeepsBold, ShowsBuffer, FINISH, RealBuffer, BufferMayLackBold, RowOk;
    LacksNothing(previous);
    FlushShowsReal(t, previous, previous, next, p);
    KeepsBoldExactly(previous, next);
  }

  // ------------------------------------------------- frames that cannot lose anything

  /** No cell is both bold and dim. */
  ghost predicate OneIntensity(b: Buffer) {
    forall i :: 0 <= i < |b.content| ==> !(b.content[i].modifier.bold && b.content[i].modifier.dim)
  }

  lemma {:induction false} InkIsTrue(previous: Buffer, next: Buffer, y: nat, x: nat)
    requires previous.IsSized() && next.IsSized() && previous.area == next.area && OneIntensity(next)
    requires y <= next.area.height && x <= next.area.width && (y == next.area.height ==> x == 0)
    ensures var ink := InkBefore(previous, next, y, x); ink.bold == ink.modifier.bold && !(ink.modifier.bold && ink.modifier.dim)
    decreases y, x
  {
    hide NeedsPut, IndexOf, Buffer.RowAt;
    if x > 0 {
      InkIsTrue(previous, next, y, x - 1);
      CellAt(next, y, x - 1);
    } else if y > 0 {
      InkIsTrue(previous, next, y - 1, next.area.width);
    }
  }

  /** A frame without a bold and dim cell loses nothing on a screen that lacks nothing. */
  lemma OneIntensityIsShown(previous: Buffer, next: Buffer)
    requires Comparable(previous, next) && OneIntensity(next)
    ensures RealBuffer(previous, previous, next) == next
  {
    hide RealBuffer, RealCell, Buffer.RowAt, NeedsPut, InkBefore, OneIntensity;
    var drawn := RealBuffer(previous, previous, next);
    forall y, x | 0 <= y < next.area.height && 0 <= x < next.area.width && NeedsPut(previous.RowAt(y), next.RowAt(y), x)
      ensures drawn.RowAt(y)[x] == next.RowAt(y)[x]
    {
      InkIsTrue(previous, next, y, x);
      RealAt(previous, previous, next, y, x);
      TruePut(previous, next, y, x);
    }
    RealIsNext(previous, next);
  }

  lemma TruePut(previous: Buffer, next: Buffer, y: nat, x: nat)
    requires previous.IsSized() && next.IsSized() && previous.area == next.area
    requires y < next.area.height && x < next.area.width && NeedsPut(previous.RowAt(y), next.RowAt(y), x)
    requires var ink := InkBefore(previous, next, y, x); ink.bold == ink.modifier.bold && !(ink.modifier.bold && ink.modifier.dim)
    ensures RealCell(previous, previous, next, y, x) == next.RowAt(y)[x]
  {
    hide NeedsPut, InkBefore;
  }

  // ------------------------------------------------------------------- an input

  /** Bold and dim text followed by bold text: the second cell is printed without its
      bold, so the screen does not show the frame. */
  lemma BoldIsLost(t: Terminal, previous: Buffer, next: Buffer, p: Palette)
    requires t.Ok() && t.IsPlain() && t.width == 2 && next.area == Rect(0, 0, 2, 1) && previous == EmptyBuffer(next.area)
    requires ShowsBuffer(t.grid, previous, p)
    requires next.content == [Cell(Narrow("a"), Reset, Reset, PLAIN.(bold := true, dim := true)),
                              Cell(Narrow("b"), Reset, Reset, PLAIN.(bold := true))]
    ensures next.IsWellFormed()
    ensures !ShowsBuffer(ExecAll(t, Written(FRESH_PEN, DiffCommands(previous, next), p) + FINISH).grid, next, p)
  {
    hide ExecAll, Written, ShowsBuffer, FINISH;
    EmptyIsWellFormed(next.area);
    var row := next.RowAt(0);
    assert row == next.content;
    VisibleBounds(row);
    TwoPuts(previous, next);
    FlushShowsNext(t, previous, next, p);
  }

  lemma TwoPuts(previous: Buffer, next: Buffer)
    requires Comparable(previous, next) && next.area == Rect(0, 0, 2, 1)
    requires NeedsPut(previous.RowAt(0), next.RowAt(0), 0) && NeedsPut(previous.RowAt(0), next.RowAt(0), 1)
    requires !KeepsIntensity(next.RowAt(0)[0].modifier, next.RowAt(0)[1].modifier)
    ensures !KeepsBold(DiffCommands(previous, next))
  {
    hide NeedsPut, ClearStart;
    var clears, row := Clears(next, 1), next.RowAt(0);
    var a, b := Put(0, next.area.y, row[0]), Put(1, next.area.y, row[1]);
    assert Puts(previous, next, next, 0, 0) == [];
    assert Puts(previous, next, next, 0, 1) == [a];
    assert Puts(previous, next, next, 0, 2) == [a, b];
    assert Puts(previous, next, next, 1, 0) == [a, b];
    var all := DiffCommands(previous, next);
    assert all == clears + [a, b];
    assert all[|clears|] == a && all[|clears| + 1] == b;
  }
}
