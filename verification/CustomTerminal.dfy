/**
 The inline terminal: a viewport at the bottom of the screen, drawn by diffing two
 buffers, and history written into the rows above it. Buffers are resized and reset
 as ratatui 0.29 does. The screen keeps its size.
 */
module CustomTerminal {
  import opened Wrappers
  import opened Cells
  import opened Screen
  import opened DiffRenderer
  import opened Tty
  import opened DrawUpdates
  import opened FrameFlush
  import opened HistoryLines
  import opened OneRowRegions

  /** `Buffer::resize`: the cells are kept in reading order, cut off or filled up. */
  function Resized(b: Buffer, area: Rect): (r: Buffer)
    ensures r.area == area
  {
    var length := area.height * area.width;
    Buffer(area, if |b.content| > length then b.content[..length] else b.content + Blanks(length - |b.content|))
  }

  function Bottom(area: Rect): nat {
    area.y + area.height
  }

  // ---------------------------------------------------------------- the invariant

  /** The viewport lies on the screen, and the rows under it show the buffer. */
  ghost predicate Mirrors(t: Terminal, shown: Buffer, p: Palette) {
    && t.Ok() && t.IsPlain() && t.FullRegion()
    && shown.IsWellFormed()
    && shown.area.x == 0 && Bottom(shown.area) <= |t.grid|
    && (shown.area.height > 0 ==> shown.area.width == t.width)
    && forall y :: 0 <= y < shown.area.height ==> Shows(t.grid[shown.area.y + y], shown.RowAt(y), p)
  }

  lemma MirrorsFacts(t: Terminal, shown: Buffer, p: Palette)
    requires Mirrors(t, shown, p)
    ensures t.Ok() && t.IsPlain() && t.FullRegion() && shown.IsWellFormed() && shown.area.x == 0
  {
  }

  lemma MirrorsIsShowsBuffer(t: Terminal, shown: Buffer, p: Palette)
    requires Mirrors(t, shown, p)
    ensures ShowsBuffer(t.grid, shown, p)
  {
  }

  /** Flushing leaves a plain terminal, on which the screen under the viewport is known
      again: the frame, perhaps without some of its bold. */
  lemma FlushMirrors(t: Terminal, shown: Buffer, previous: Buffer, next: Buffer, p: Palette)
    requires Mirrors(t, shown, p) && BufferMayLackBold(shown, previous) && next.area == previous.area && next.IsWellFormed()
    ensures previous.IsWellFormed() && shown.area == previous.area
    ensures var r := ExecAll(t, Written(FRESH_PEN, DiffCommands(previous, next), p) + FINISH);
            var drawn := RealBuffer(shown, previous, next);
            && Mirrors(r, drawn, p) && BufferMayLackBold(drawn, next)
            && (ShowsBuffer(r.grid, next, p) <==> drawn == next)
            && forall i :: 0 <= i < |t.grid| && !(next.area.y <= i < Bottom(next.area)) ==> r.grid[i] == t.grid[i]
  {
    hide ExecAll, Written, FINISH, DiffCommands, Shows, BufferMayLackBold, RealBuffer, RowOk;
    LackingSized(shown, previous);
    LackingIsWellFormed(shown, previous);
    var r := ExecAll(t, Written(FRESH_PEN, DiffCommands(previous, next), p) + FINISH);
    MirrorsIsShowsBuffer(t, shown, p);
    if next.area.height > 0 {
      FlushShowsReal(t, shown, previous, next, p);
    } else {
      NothingShown(t, shown, previous, next, p);
    }
  }

  /** A viewport without rows. */
  lemma NothingShown(t: Terminal, shown: Buffer, previous: Buffer, next: Buffer, p: Palette)
    requires Mirrors(t, shown, p) && shown.area == previous.area == next.area && previous.IsWellFormed() && next.IsWellFormed()
    requires next.area.height == 0
    ensures var r := ExecAll(t, Written(FRESH_PEN, DiffCommands(previous, next), p) + FINISH);
            && RealBuffer(shown, previous, next) == next && BufferMayLackBold(next, next)
            && r.grid == t.grid && Mirrors(r, next, p) && ShowsBuffer(r.grid, next, p)
  {
    hide ExecAll, Written, FINISH;
    assert RealBuffer(shown, previous, next).content == [] == next.content;
    NoCommands(previous, next);
    UpdatesSound(t, [], p);
  }

  lemma NoCommands(previous: Buffer, next: Buffer)
    requires previous.IsSized() && next.IsSized() && previous.area == next.area && next.area.height == 0
    ensures DiffCommands(previous, next) == []
  {
    assert Clears(next, 0) == [] && Puts(previous, next, next, 0, 0) == [];
  }

  lemma CursorMirrors(t: Terminal, x: nat, y: nat, shown: Buffer, p: Palette)
    requires t.Ok()
    ensures Mirrors(Exec(t, MoveTo(x, y)), shown, p) <==> Mirrors(t, shown, p)
    ensures Exec(t, MoveTo(x, y)).grid == t.grid && Exec(t, MoveTo(x, y)).width == t.width
    ensures Exec(t, MoveTo(x, y)).oneRowRegions == t.oneRowRegions
    ensures t.IsPlain() && t.FullRegion() ==> Exec(t, MoveTo(x, y)).IsPlain() && Exec(t, MoveTo(x, y)).FullRegion()
  {
    hide Shows;
  }

  /** Blank rows are what an empty buffer shows. */
  lemma BlankMirrors(t: Terminal, area: Rect, p: Palette)
    requires t.Ok() && t.IsPlain() && t.FullRegion() && p.KeepsReset()
    requires area.x == 0 && Bottom(area) <= |t.grid| && (area.height > 0 ==> area.width == t.width)
    requires forall i :: area.y <= i < Bottom(area) ==> t.grid[i] == BlankLine(t.width, Reset)
    ensures Mirrors(t, EmptyBuffer(area), p)
  {
    hide Shows, BlankLine, Blanks;
    EmptyIsWellFormed(area);
    forall y | 0 <= y < area.height ensures Shows(t.grid[area.y + y], EmptyBuffer(area).RowAt(y), p) {
      EmptyRow(area, y);
      BlankShows(area.width, p);
    }
  }

  /** Moving the viewport together with the rows under it. */
  lemma MovedMirrors(t: Terminal, r: Terminal, shown: Buffer, y: nat, p: Palette)
    requires Mirrors(t, shown, p) && r.Ok() && r.IsPlain() && r.FullRegion() && r.width == t.width
    requires y + shown.area.height <= |r.grid|
    requires forall i :: y <= i < y + shown.area.height ==> r.grid[i] == t.grid[i - y + shown.area.y]
    ensures Mirrors(r, shown.(area := shown.area.(y := y)), p)
  {
    hide Shows, RowOk;
    var moved := shown.(area := shown.area.(y := y));
    assert forall i :: 0 <= i < shown.area.height ==> moved.RowAt(i) == shown.RowAt(i);
  }

  // ------------------------------------------------------------ inserting history

  /** How far the viewport is pushed down to make room below the history. */
  function PushDown(area: Rect, lines: nat, height: nat): nat
    requires Bottom(area) <= height
  {
    Least(lines, height - Bottom(area))
  }

  /** From row first on, everything k rows further down, blank rows above it. */
  ghost predicate Lowered(r: Grid, base: Grid, first: nat, k: nat, blank: Line) {
    && |r| == |base|
    && (forall i :: 0 <= i < first && i < |r| ==> r[i] == base[i])
    && (forall i :: first <= i < first + k && i < |r| ==> r[i] == blank)
    && (forall i :: first + k <= i < |r| ==> r[i] == base[i - k])
  }

  lemma LoweredStep(r: Grid, base: Grid, first: nat, k: nat, blank: Line)
    requires first < |base| && Lowered(r, base, first, k, blank)
    ensures Lowered(ScrollDown(r, first, |r| - 1, blank), base, first, k + 1, blank)
  {
  }

  function Clamped(height: nat, most: nat): nat {
    if height < 1 then 1 else if height > most && most >= 1 then most else height
  }

  /** Where the viewport is after its height was asked for: at the bottom when it was
      there, when it is new, or when it would not fit otherwise. */
  function EnsuredArea(area: Rect, height: nat, width: nat, screenHeight: nat): Rect
    requires screenHeight > 0
  {
    var h := Clamped(height, screenHeight);
    if area.height == 0 || Bottom(area) == screenHeight || area.y + h > screenHeight then Rect(area.x, screenHeight - h, width, h)
    else Rect(area.x, area.y, width, h)
  }

  /** The rows above last moved up by k, blank rows below them. */
  ghost predicate Raised(r: Grid, base: Grid, last: nat, k: nat, blank: Line) {
    && |r| == |base|
    && (forall i :: last <= i < |r| ==> r[i] == base[i])
    && (forall i :: 0 <= i < last && i < |r| ==> r[i] == if i + k < last && i + k < |r| then base[i + k] else blank)
  }

  lemma RaisedStep(r: Grid, base: Grid, last: nat, k: nat, blank: Line)
    requires 0 < last <= |base| && Raised(r, base, last, k, blank)
    ensures Raised(ScrollUp(r, 0, last - 1, blank), base, last, k + 1, blank)
  {
  }

  lemma RaisedNone(base: Grid, last: nat, blank: Line)
    ensures Raised(base, base, last, 0, blank)
  {
  }

  lemma LoweredByNone(r: Grid, base: Grid, first: nat, blank: Line)
    requires Lowered(r, base, first, 0, blank)
    ensures r == base
  {
  }

  lemma LoweredNone(base: Grid, first: nat, blank: Line)
    ensures Lowered(base, base, first, 0, blank)
  {
  }

  lemma ScrolledNone(base: Grid, bottom: nat)
    requires bottom < |base|
    ensures Scrolled(base, base, bottom, [])
  {
    assert base[..bottom + 1] + [] == base[..bottom + 1];
  }

  /** The screen keeps its size and the terminal its kind. */
  predicate SameShape(r: Terminal, t: Terminal) {
    r.width == t.width && |r.grid| == |t.grid| && r.oneRowRegions == t.oneRowRegions
  }

  function Repeated(line: Line, n: nat): (r: seq<Line>)
    ensures |r| == n && forall i :: 0 <= i < n ==> r[i] == line
  {
    seq(n, _ => line)
  }

  /** The first n rows of the grid are the last n of all. */
  ghost predicate Newest(grid: Grid, all: seq<Line>, n: nat) {
    n <= |all| && n <= |grid| && grid[..n] == all[|all| - n..]
  }

  /** How many rows above stay when the viewport goes to row y: all of them, except
      that a new viewport takes its rows without scrolling. */
  function Kept(previous: Rect, y: nat): nat {
    if previous.height == 0 then Least(previous.y, y) else previous.y
  }

  /** The rows above the viewport, oldest first, after it was given its height; one that
      shrinks leaves blank rows. */
  function AboveAfterResize(above: seq<Line>, previous: Rect, y: nat, width: nat): (r: seq<Line>)
    requires previous.y <= |above|
    ensures |r| >= y
  {
    var kept := Kept(previous, y);
    above[..|above| - previous.y + kept] + Repeated(BlankLine(width, Reset), if y > kept then y - kept else 0)
  }

  /** No row above is lost, blank ones follow where the viewport starts further down; only
      a new viewport takes the last of them for itself when it starts further up. */
  lemma AboveIs(above: seq<Line>, previous: Rect, y: nat, width: nat)
    requires previous.y <= |above|
    ensures var r := AboveAfterResize(above, previous, y, width);
            if previous.height == 0 && y < previous.y then r == above[..|above| - (previous.y - y)]
            else r == above + Repeated(BlankLine(width, Reset), if y > previous.y then y - previous.y else 0)
  {
    hide BlankLine;
    assert above[..|above|] == above;
  }

  /** Rows above the viewport after scrolling by amount and clearing downwards. */
  lemma ResizeKeepsNewest(r: Grid, raised: Grid, base: Grid, previous: Rect, y: nat, amount: nat, width: nat)
    requires |r| == |raised| == |base| && Bottom(previous) <= |base| && y <= |base|
    requires forall i :: 0 <= i < Least(previous.y, y) ==> r[i] == raised[i]
    requires forall i :: previous.y <= i < y ==> r[i] == BlankLine(width, Reset)
    requires if amount == 0 then raised == base && (previous.height > 0 ==> previous.y <= y)
             else previous.height > 0 && amount <= previous.y && y == previous.y - amount
                  && (previous.y > 1 ==> Raised(raised, base, previous.y, amount, BlankLine(width, Reset)))
    ensures Newest(r, AboveAfterResize(base[..previous.y], previous, y, width), y)
  {
    hide BlankLine;
    var all := AboveAfterResize(base[..previous.y], previous, y, width);
    forall i | 0 <= i < y ensures r[i] == all[|all| - y + i] {
      if i < previous.y {
        assert r[i] == raised[i];
        if amount > 0 {
          assert raised[i] == base[i + amount];
        }
      } else {
        assert r[i] == BlankLine(width, Reset);
      }
    }
    assert r[..y] == all[|all| - y..];
  }

  lemma MovedLacks(a: Buffer, b: Buffer, area: Rect)
    requires BufferMayLackBold(a, b)
    ensures BufferMayLackBold(a.(area := area), b.(area := area))
  {
  }

  lemma SameSizeResized(b: Buffer, area: Rect)
    requires b.IsSized() && area == b.area.(y := area.y)
    ensures Resized(b, area) == b.(area := area)
  {
    assert Blanks(0) == [] && b.content + [] == b.content;
  }

  /** The rows above the viewport took the lines; those under it only moved. */
  lemma InsertedMirrors(t: Terminal, r: Terminal, shown: Buffer, lowered: Grid, images: seq<Line>, y: nat, p: Palette)
    requires Mirrors(t, shown, p) && r.Ok() && r.IsPlain() && r.FullRegion() && r.width == t.width && |r.grid| == |t.grid|
    requires shown.area.y <= y && y + shown.area.height <= |t.grid| && 0 < shown.area.y
    requires Lowered(lowered, t.grid, shown.area.y, y - shown.area.y, BlankLine(t.width, Reset))
    requires Scrolled(r.grid, lowered, y - 1, images)
    ensures Mirrors(r, shown.(area := shown.area.(y := y)), p)
    ensures forall i :: y <= i < y + shown.area.height ==> r.grid[i] == t.grid[i - (y - shown.area.y)]
    ensures Newest(r.grid, t.grid[..shown.area.y] + Repeated(BlankLine(t.width, Reset), y - shown.area.y) + images, y)
  {
    hide Shows, BlankLine;
    MovedMirrors(t, r, shown, y, p);
    var all := t.grid[..shown.area.y] + Repeated(BlankLine(t.width, Reset), y - shown.area.y);
    assert lowered[..y] == all;
    assert r.grid[..y] == (all + images)[|images|..];
  }

  function Images(lines: seq<HistoryLine>, padding: nat, width: nat, p: Palette): (images: seq<Line>)
    requires forall line :: line in lines ==> FitsWidth(line, padding, width, p)
    ensures |images| == |lines|
    ensures forall i :: 0 <= i < |lines| ==> images[i] == LineImage(lines[i], padding, width, p)
  {
    seq(|lines|, i requires 0 <= i < |lines| => LineImage(lines[i], padding, width, p))
  }

  // ------------------------------------------------------------------ the terminal

  /** Where the last put of a list goes. */
  function LastPut(commands: seq<DrawCommand>, otherwise: (nat, nat)): (nat, nat) {
    if commands == [] then otherwise
    else
      var last := commands[|commands| - 1];
      if last.Put? then (last.x, last.y) else LastPut(commands[..|commands| - 1], otherwise)
  }

  /** The last put of the list, or the position remembered so far when there is none. */
  lemma {:induction false} LastPutIs(commands: seq<DrawCommand>, otherwise: (nat, nat), i: nat)
    requires i < |commands| ==> commands[i].Put?
    requires forall j :: i < j < |commands| ==> !commands[j].Put?
    requires i >= |commands| ==> forall j :: 0 <= j < |commands| ==> !commands[j].Put?
    ensures LastPut(commands, otherwise) == if i < |commands| then (commands[i].x, commands[i].y) else otherwise
  {
    if commands != [] && i + 1 != |commands| {
      LastPutIs(commands[..|commands| - 1], otherwise, i);
    }
  }

  class CustomTerminal {
    const palette: Palette
    var tty: Terminal
    var buffers: seq<Buffer>
    var current: nat
    var viewport: Rect
    var lastKnownScreenSize: (nat, nat)
    var lastKnownCursorPos: (nat, nat)
    var hiddenCursor: bool
    /** What the screen really shows under the viewport. */
    ghost var shown: Buffer

    function PreviousBuffer(): Buffer
      requires |buffers| == 2 && current < 2
      reads this
    {
      buffers[1 - current]
    }

    /** The viewport lies on the screen, and the rows under it show the previous buffer,
        perhaps without some of its bold. */
    ghost predicate Valid()
      reads this
    {
      && palette.KeepsReset()
      && |buffers| == 2 && current < 2
      && buffers[0].area == viewport == buffers[1].area
      && Mirrors(tty, shown, palette) && BufferMayLackBold(shown, PreviousBuffer())
      && lastKnownScreenSize == (tty.width, |tty.grid|)
    }

    lemma ValidFacts()
      requires Valid()
      ensures tty.Ok() && tty.IsPlain() && tty.FullRegion() && tty.width > 0
      ensures viewport.x == 0 && Bottom(viewport) <= |tty.grid| && (viewport.height > 0 ==> viewport.width == tty.width)
      ensures PreviousBuffer().IsWellFormed() && PreviousBuffer().IsSized() && shown.IsSized() && shown.area == viewport
    {
      hide Shows, RowOk, Buffer.RowAt;
      LackingIsWellFormed(shown, PreviousBuffer());
      LackingSized(shown, PreviousBuffer());
    }

    constructor (tty: Terminal, palette: Palette)
      requires palette.KeepsReset() && tty.Ok() && tty.IsPlain() && tty.FullRegion()
      ensures Valid() && this.tty == tty && viewport == Rect(0, tty.y, 0, 0) && shown == PreviousBuffer()
    {
      this.palette := palette;
      this.tty := tty;
      buffers := [EmptyBuffer(Rect(0, tty.y, 0, 0)), EmptyBuffer(Rect(0, tty.y, 0, 0))];
      current := 0;
      viewport := Rect(0, tty.y, 0, 0);
      lastKnownScreenSize := (tty.width, |tty.grid|);
      lastKnownCursorPos := (tty.x, tty.y);
      hiddenCursor := false;
      shown := EmptyBuffer(Rect(0, tty.y, 0, 0));
    }

    /** Writing control sequences to the backend. */
    method Queue(ops: seq<Op>)
      requires tty.Ok()
      modifies `tty
      ensures tty == ExecAll(old(tty), ops)
    {
      tty := ExecAll(tty, ops);
    }

    method SetViewportArea(area: Rect)
      requires |buffers| == 2 && current < 2
      modifies `buffers, `viewport
      ensures buffers == [Resized(old(buffers)[0], area), Resized(old(buffers)[1], area)] && viewport == area
    {
      buffers := [Resized(buffers[0], area), Resized(buffers[1], area)];
      viewport := area;
    }

    /** `draw`: no row outside the viewport changes, and the screen shows the frame,
        perhaps without some of its bold; RealBuffer says which. */
    method Draw(content: seq<Cell>, cursor: Option<(nat, nat)>)
      requires Valid() && Buffer(viewport, content).IsWellFormed()
      modifies this
      ensures Valid() && viewport == old(viewport) && SameShape(tty, old(tty))
      ensures PreviousBuffer() == Buffer(viewport, content)
      ensures old(shown).IsSized() && old(PreviousBuffer()).IsSized() && old(shown).area == viewport
      ensures shown == RealBuffer(old(shown), old(PreviousBuffer()), Buffer(viewport, content))
      ensures ShowsBuffer(tty.grid, Buffer(viewport, content), palette) <==> shown == Buffer(viewport, content)
      ensures forall i :: 0 <= i < |tty.grid| && !(viewport.y <= i < Bottom(viewport)) ==> tty.grid[i] == old(tty.grid)[i]
      ensures hiddenCursor == cursor.None?
      ensures cursor.Some? ==>
                && lastKnownCursorPos == cursor.value
                && tty.x == Least(cursor.value.0, tty.width - 1) && tty.y == Least(cursor.value.1, |tty.grid| - 1)
      ensures cursor.None? ==>
                lastKnownCursorPos == LastPut(DiffCommands(old(PreviousBuffer()), Buffer(viewport, content)), old(lastKnownCursorPos))
    {
      hide Mirrors, ExecAll, DiffCommands, LastPut, RealBuffer, BufferMayLackBold, ShowsBuffer, RowOk;
      ValidFacts();
      buffers := buffers[current := Buffer(viewport, content)];
      Flush();
      match cursor {
        case Some(position) =>
          hiddenCursor := false;
          CursorMirrors(tty, position.0, position.1, shown, palette);
          SetCursorPosition(position.0, position.1);
        case None =>
          hiddenCursor := true;
      }
      SwapBuffers();
    }

    method Flush()
      requires |buffers| == 2 && current < 2 && Mirrors(tty, shown, palette) && BufferMayLackBold(shown, PreviousBuffer())
      requires buffers[0].area == buffers[1].area && buffers[current].IsWellFormed()
      modifies `tty, `lastKnownCursorPos, `shown
      ensures Mirrors(tty, shown, palette) && BufferMayLackBold(shown, buffers[current])
      ensures tty.Ok() && tty.IsPlain() && tty.FullRegion() && SameShape(tty, old(tty))
      ensures old(shown).IsSized() && PreviousBuffer().IsSized() && old(shown).area == PreviousBuffer().area
      ensures shown == RealBuffer(old(shown), PreviousBuffer(), buffers[current])
      ensures ShowsBuffer(tty.grid, buffers[current], palette) <==> shown == buffers[current]
      ensures lastKnownCursorPos == LastPut(DiffCommands(PreviousBuffer(), buffers[current]), old(lastKnownCursorPos))
      ensures var area := buffers[current].area;
              forall i :: 0 <= i < |tty.grid| && !(area.y <= i < Bottom(area)) ==> tty.grid[i] == old(tty.grid)[i]
    {
      hide Shows, ExecAll, Written, DiffCommands, FINISH, RealBuffer, BufferMayLackBold, ShowsBuffer, RowOk;
      var previous, next := PreviousBuffer(), buffers[current];
      FlushMirrors(tty, shown, previous, next, palette);
      MirrorsFacts(tty, shown, palette);
      var updates := DiffBuffers(previous, next);
      var i := |updates|;
      assert updates[..i] == updates;
      while i > 0 && !updates[i - 1].Put?
        invariant i <= |updates| && LastPut(updates, lastKnownCursorPos) == LastPut(updates[..i], lastKnownCursorPos)
      {
        assert updates[..i][..i - 1] == updates[..i - 1];
        i := i - 1;
      }
      if i > 0 {
        lastKnownCursorPos := (updates[i - 1].x, updates[i - 1].y);
      }
      var ops := WriteUpdates(updates, palette);
      Queue(ops);
      shown := RealBuffer(shown, previous, next);
    }

    method SwapBuffers()
      requires |buffers| == 2 && current < 2
      modifies `buffers, `current
      ensures |buffers| == 2 && current < 2 && PreviousBuffer() == old(buffers[current])
      ensures buffers[current] == EmptyBuffer(old(PreviousBuffer().area))
    {
      buffers := buffers[1 - current := EmptyBuffer(buffers[1 - current].area)];
      current := 1 - current;
    }

    method SetCursorPosition(x: nat, y: nat)
      requires tty.Ok()
      modifies `tty, `lastKnownCursorPos
      ensures tty == Exec(old(tty), MoveTo(x, y)) && lastKnownCursorPos == (x, y)
    {
      ExecOne(tty, MoveTo(x, y));
      Queue([MoveTo(x, y)]);
      lastKnownCursorPos := (x, y);
    }

    /** `clear_after_position` from the start of row y. */
    method ClearAfterRow(y: nat)
      requires |buffers| == 2 && current < 2 && tty.Ok() && tty.IsPlain() && y < |tty.grid|
      modifies `tty, `buffers
      ensures tty.Ok() && tty.IsPlain() && tty.width == old(tty.width) && |tty.grid| == |old(tty.grid)|
      ensures tty.oneRowRegions == old(tty.oneRowRegions) && tty.top == old(tty.top) && tty.bottom == old(tty.bottom)
      ensures forall i :: 0 <= i < |tty.grid| ==> tty.grid[i] == if i < y then old(tty.grid)[i] else BlankLine(tty.width, Reset)
      ensures buffers == old(buffers)[1 - current := EmptyBuffer(old(buffers)[1 - current].area)]
    {
      ClearDownEffect(tty, y);
      Queue([MoveTo(0, y), ClearDown]);
      buffers := buffers[1 - current := EmptyBuffer(buffers[1 - current].area)];
    }

    /** `clear_for_history_replay`. */
    method ClearForHistoryReplay()
      requires Valid()
      modifies `tty, `buffers, `shown
      ensures Valid() && viewport == old(viewport) && SameShape(tty, old(tty))
      ensures PreviousBuffer() == EmptyBuffer(viewport) == shown
      ensures forall i :: 0 <= i < |tty.grid| ==> tty.grid[i] == BlankLine(tty.width, Reset)
    {
      ClearAllEffect(tty);
      Queue([ClearAll, MoveTo(0, 0)]);
      buffers := [EmptyBuffer(viewport), EmptyBuffer(viewport)];
      BlankMirrors(tty, viewport, palette);
      shown := EmptyBuffer(viewport);
      LacksNothing(shown);
    }

    /** `scroll_region_up`: the rows above last move up. */
    method ScrollRegionUp(first: nat, last: nat, amount: nat)
      requires tty.Ok() && tty.IsPlain() && tty.FullRegion()
      modifies `tty
      ensures tty.Ok() && tty.IsPlain() && tty.FullRegion() && SameShape(tty, old(tty))
      ensures amount == 0 || first >= last ==> tty == old(tty)
      ensures first == 0 && 1 < last <= |tty.grid| ==> Raised(tty.grid, old(tty.grid), last, amount, BlankLine(tty.width, Reset))
    {
      if amount == 0 || first >= last {
        return;
      }
      hide BlankLine, ExecAll, Raised, Terminal.Ok, Terminal.IsPlain, Terminal.FullRegion;
      EnterRegion(tty, first, last);
      Queue([SetRegion(first + 1, last)]);
      Queue([MoveTo(0, last - 1)]);
      FeedLines(amount);
      RegionReset(tty);
      Queue([ResetRegion]);
    }

    /** Line feeds, which scroll when the cursor is on the last row of the region. */
    method FeedLines(amount: nat)
      requires tty.Ok() && tty.IsPlain()
      modifies `tty
      ensures tty.Ok() && tty.IsPlain() && SameShape(tty, old(tty))
      ensures old(tty).top == 0 && old(tty).y == old(tty).bottom ==>
                Raised(tty.grid, old(tty.grid), old(tty).bottom + 1, amount, BlankLine(tty.width, Reset))
    {
      hide BlankLine, ExecAll, Exec, ScrollUp, Raised;
      ghost var start := tty;
      ghost var honoured := start.top == 0 && start.y == start.bottom;
      RaisedNone(start.grid, start.bottom + 1, BlankLine(start.width, Reset));
      for k := 0 to amount
        invariant tty.Ok() && tty.IsPlain() && SameShape(tty, start)
        invariant honoured ==> tty.top == 0 && tty.bottom == start.bottom == tty.y
        invariant honoured ==> Raised(tty.grid, start.grid, start.bottom + 1, k, BlankLine(start.width, Reset))
      {
        LineFeedEffect(tty);
        if honoured {
          RaisedStep(tty.grid, start.grid, start.bottom + 1, k, BlankLine(start.width, Reset));
        }
        Queue([LineFeed]);
      }
    }

    /** The viewport takes its new rows, which are blank. */
    method Reshape(area: Rect)
      requires palette.KeepsReset() && |buffers| == 2 && current < 2 && tty.Ok() && tty.IsPlain() && tty.FullRegion()
      requires lastKnownScreenSize == (tty.width, |tty.grid|)
      requires area.x == 0 && area.width == tty.width && Bottom(area) <= |tty.grid| && Least(viewport.y, area.y) < |tty.grid|
      modifies `tty, `buffers, `viewport, `shown
      ensures Valid() && viewport == area && SameShape(tty, old(tty)) && PreviousBuffer() == EmptyBuffer(area) == shown
      ensures forall i :: 0 <= i < |tty.grid| ==>
                tty.grid[i] == if i < Least(old(viewport).y, area.y) then old(tty).grid[i] else BlankLine(tty.width, Reset)
    {
      hide Mirrors, Shows, BlankLine, EmptyBuffer, Resized, ExecAll, Terminal.Ok, BufferMayLackBold;
      var first := Least(viewport.y, area.y);
      SetViewportArea(area);
      ClearAfterRow(first);
      BlankMirrors(tty, area, palette);
      shown := EmptyBuffer(area);
      LacksNothing(shown);
    }

    /** `ensure_viewport_height`: the viewport keeps, or gets, its place, and its rows
        are blank when its shape changes. The rows above stay the newest of what was
        above; a viewport that shrinks leaves blank ones behind. */
    method EnsureViewportHeight(height: nat)
      requires Valid()
      modifies this
      ensures Valid() && SameShape(tty, old(tty))
      ensures viewport == EnsuredArea(old(viewport), height, tty.width, |tty.grid|)
      ensures viewport.x == 0 && viewport.width == tty.width
      ensures viewport.height == if height == 0 then 1 else if height > |tty.grid| then |tty.grid| else height
      ensures var grown := old(viewport).y + viewport.height > |tty.grid|;
              if old(viewport).height == 0 || Bottom(old(viewport)) == |tty.grid| || grown then Bottom(viewport) == |tty.grid|
              else viewport.y == old(viewport).y
      ensures viewport == old(viewport) ==> tty == old(tty) && PreviousBuffer() == old(PreviousBuffer()) && shown == old(shown)
      ensures viewport != old(viewport) ==> PreviousBuffer() == EmptyBuffer(viewport) == shown
      ensures Newest(tty.grid, AboveAfterResize(old(tty.grid)[..old(viewport).y], old(viewport), viewport.y, tty.width), viewport.y)
    {
      hide Mirrors, Shows, BlankLine, EmptyBuffer, Resized, Newest, Raised, ExecAll, AboveAfterResize, Terminal.Ok, BufferMayLackBold;
      ValidFacts();
      var screenHeight := |tty.grid|;
      var viewportWasBottomAligned := Bottom(viewport) == lastKnownScreenSize.1;
      var previous := viewport;
      var area := Rect(previous.x, previous.y, tty.width, Clamped(height, screenHeight));
      ghost var base := tty.grid;
      ghost var amount := 0;
      lastKnownScreenSize := (tty.width, screenHeight);
      if previous.height == 0 {
        area := area.(y := screenHeight - area.height);
      }
      if Bottom(area) > screenHeight {
        var scrollBy := Bottom(area) - screenHeight;
        amount := scrollBy;
        ScrollRegionUp(0, area.y, scrollBy);
        area := area.(y := screenHeight - area.height);
      } else if viewportWasBottomAligned {
        area := area.(y := screenHeight - area.height);
      }
      ghost var raised := tty.grid;
      if area != previous {
        Reshape(area);
      }
      ResizeKeepsNewest(tty.grid, raised, base, previous, area.y, amount, tty.width);
    }

    /** `insert_history_lines`. The lines appear directly above the viewport, older rows
        move up; a viewport that does not reach the bottom is pushed down first. */
    method InsertHistoryLines(lines: seq<HistoryLine>, leftPadding: nat)
      requires Valid()
      requires forall line :: line in lines ==> FitsWidth(line, Least(leftPadding, tty.width - 1), tty.width, palette)
      modifies this
      ensures tty.Ok() && SameShape(tty, old(tty)) && lastKnownCursorPos == old(lastKnownCursorPos)
      ensures old(shown).IsSized() && old(shown).area == old(viewport) && Bottom(old(viewport)) <= |tty.grid|
      ensures var idle := lines == [] || old(viewport).height == 0 || old(viewport).y == 0;
              var room := |tty.grid| - Bottom(old(viewport));
              var down := if |lines| <= room then |lines| else room;
              if idle then
                tty == old(tty) && viewport == old(viewport) && Valid() && PreviousBuffer() == old(PreviousBuffer()) && shown == old(shown)
              else
                && viewport == old(viewport).(y := old(viewport).y + down) && Bottom(viewport) <= |tty.grid|
                && tty.x == Least(lastKnownCursorPos.0, tty.width - 1) && tty.y == Least(lastKnownCursorPos.1, |tty.grid| - 1)
                && |buffers| == 2 && current < 2
                && PreviousBuffer() == old(PreviousBuffer()).(area := viewport) && shown == old(shown).(area := viewport)
                && (Valid() <==> Mirrors(tty, shown, palette))
                && LinesInserted(old(tty), tty, old(shown), viewport.y,
                     Images(lines, Least(leftPadding, tty.width - 1), tty.width, palette), palette)
    {
      hide LineImage, FitsWidth, Shows, Mirrors, Images, Terminal.Ok, BufferMayLackBold, LinesInserted;
      ValidFacts();
      if lines == [] || viewport.height == 0 || viewport.y == 0 {
        return;
      }
      InsertLines(lines, Least(leftPadding, tty.width - 1));
    }

    /** The lines are written, and the viewport is where it has been pushed. */
    method InsertLines(lines: seq<HistoryLine>, padding: nat)
      requires Valid() && lines != [] && viewport.height > 0 && viewport.y > 0 && padding < tty.width
      requires forall line :: line in lines ==> FitsWidth(line, padding, tty.width, palette)
      modifies this
      ensures tty.Ok() && SameShape(tty, old(tty)) && lastKnownCursorPos == old(lastKnownCursorPos)
      ensures viewport == old(viewport).(y := old(viewport).y + PushDown(old(viewport), |lines|, |tty.grid|))
      ensures tty.x == Least(lastKnownCursorPos.0, tty.width - 1) && tty.y == Least(lastKnownCursorPos.1, |tty.grid| - 1)
      ensures |buffers| == 2 && current < 2 && PreviousBuffer() == old(PreviousBuffer()).(area := viewport)
      ensures shown == old(shown).(area := viewport)
      ensures old(shown).IsSized() && old(shown).area == old(viewport) && viewport.y < |tty.grid| && old(viewport).y <= viewport.y
      ensures Bottom(viewport) <= |tty.grid|
      ensures Valid() <==> Mirrors(tty, shown, palette)
      ensures LinesInserted(old(tty), tty, old(shown), viewport.y, Images(lines, padding, tty.width, palette), palette)
    {
      hide BlankLine, LineImage, FitsWidth, Shows, Mirrors, Lowered, Resized, AreInserted, LinesInserted;
      hide ExecAll, Exec, SpansCells, Images, Terminal.Ok, BufferMayLackBold, Buffer.IsWellFormed;
      ValidFacts();
      var area := PushViewportDown(|lines|);
      ghost var lowered := tty.grid;
      WriteAbove(area.y, lines, padding);
      InsertedExactly(old(tty), tty, shown, lowered, Images(lines, padding, tty.width, palette), area.y, palette);
      SameSizeResized(PreviousBuffer(), area);
      MovedLacks(shown, PreviousBuffer(), area);
      shown := shown.(area := area);
      SetViewportArea(area);
    }

    /** The lines above row y, and the cursor back in its place. */
    method WriteAbove(y: nat, lines: seq<HistoryLine>, padding: nat)
      requires tty.Ok() && tty.IsPlain() && tty.FullRegion() && 0 < y < |tty.grid| && padding < tty.width
      requires forall line :: line in lines ==> FitsWidth(line, padding, tty.width, palette)
      modifies `tty
      ensures tty.Ok() && SameShape(tty, old(tty)) && tty.IsPlain() && tty.FullRegion()
      ensures tty.x == Least(lastKnownCursorPos.0, tty.width - 1) && tty.y == Least(lastKnownCursorPos.1, |tty.grid| - 1)
      ensures AreInserted(tty, old(tty.grid), y, Images(lines, padding, tty.width, palette))
    {
      hide LineImage, FitsWidth, ExecAll, Exec, Images;
      AppendLines(y, lines, padding);
      MoveEffect(tty, lastKnownCursorPos.0, lastKnownCursorPos.1);
      Queue([MoveTo(lastKnownCursorPos.0, lastKnownCursorPos.1)]);
    }

    /** A viewport that does not reach the bottom makes room for some of the lines. */
    method PushViewportDown(lines: nat) returns (area: Rect)
      requires tty.Ok() && tty.IsPlain() && tty.FullRegion() && viewport.height > 0 && Bottom(viewport) <= |tty.grid|
      modifies `tty
      ensures tty.Ok() && tty.IsPlain() && tty.FullRegion() && SameShape(tty, old(tty))
      ensures area == viewport.(y := viewport.y + PushDown(viewport, lines, |tty.grid|))
      ensures Lowered(tty.grid, old(tty.grid), viewport.y, area.y - viewport.y, BlankLine(tty.width, Reset))
    {
      hide BlankLine, Lowered;
      var height := |tty.grid|;
      area := viewport;
      LoweredNone(tty.grid, area.y, BlankLine(tty.width, Reset));
      if Bottom(area) < height {
        var scrollAmount := Least(lines, height - Bottom(area));
        LowerRows(area.y, scrollAmount);
        area := area.(y := area.y + scrollAmount);
      }
    }

    /** The rows from first on move down, by reverse line feeds at the top of a region. */
    method LowerRows(first: nat, amount: nat)
      requires tty.Ok() && tty.IsPlain() && tty.FullRegion() && first + 1 < |tty.grid|
      modifies `tty
      ensures tty.Ok() && tty.IsPlain() && tty.FullRegion() && SameShape(tty, old(tty))
      ensures Lowered(tty.grid, old(tty.grid), first, amount, BlankLine(tty.width, Reset))
    {
      hide BlankLine, ExecAll, Exec, ScrollDown, Lowered;
      ghost var base := tty.grid;
      RegionEffect(tty, first + 1, |tty.grid|);
      Queue([SetRegion(first + 1, |tty.grid|)]);
      MoveEffect(tty, 0, first);
      Queue([MoveTo(0, first)]);
      LoweredNone(base, first, BlankLine(tty.width, Reset));
      for k := 0 to amount
        invariant tty.Ok() && tty.IsPlain() && SameShape(tty, old(tty))
        invariant tty.top == first == tty.y && tty.bottom == |tty.grid| - 1
        invariant Lowered(tty.grid, base, first, k, BlankLine(tty.width, Reset))
      {
        LoweredStep(tty.grid, base, first, k, BlankLine(tty.width, Reset));
        ReverseIndexEffect(tty);
        Queue([ReverseIndex]);
      }
      RegionReset(tty);
      Queue([ResetRegion]);
    }

    /** The lines are appended at the bottom of the rows above y. */
    method AppendLines(y: nat, lines: seq<HistoryLine>, padding: nat)
      requires tty.Ok() && tty.IsPlain() && tty.FullRegion() && 0 < y < |tty.grid| && padding < tty.width
      requires forall line :: line in lines ==> FitsWidth(line, padding, tty.width, palette)
      modifies `tty
      ensures tty.Ok() && SameShape(tty, old(tty)) && tty.IsPlain() && tty.FullRegion()
      ensures AreInserted(tty, old(tty.grid), y, Images(lines, padding, tty.width, palette))
    {
      hide BlankLine, LineImage, FitsWidth, ExecAll, Exec, LineOps, NewRowOps, Appending;
      ghost var base := tty.grid;
      ghost var images := Images(lines, padding, tty.width, palette);
      RegionEffect(tty, 1, y);
      Queue([SetRegion(1, y)]);
      MoveEffect(tty, 0, y - 1);
      Queue([MoveTo(0, y - 1)]);
      NothingAppended(tty, base, y);
      assert images[..0] == [];
      for k := 0 to |lines|
        invariant tty.Ok() && SameShape(tty, old(tty))
        invariant Appending(tty, base, y, images[..k])
      {
        assert lines[k] in lines;
        AppendStep(tty, base, y, lines[k], images, k, padding, palette);
        var written := WriteHistoryLine(lines[k], palette);
        Queue(NewRowOps(padding) + written);
      }
      assert images[..|lines|] == images;
      AppendingFacts(tty, base, y, images);
      ResetEffect(tty);
      Queue([ResetRegion]);
    }
  }

  lemma NothingAppended(t: Terminal, base: Grid, y: nat)
    requires 0 < y < |base| && t.grid == base && t.IsPlain() && t.top == 0 && t.y == y - 1
    requires t.bottom == if t.oneRowRegions || y >= 2 then y - 1 else |base| - 1
    ensures Appending(t, base, y, [])
  {
    ScrolledNone(base, y - 1);
    OverrunNone(base);
  }

  lemma AppendingFacts(t: Terminal, base: Grid, y: nat, images: seq<Line>)
    requires 0 < y < |base| && Appending(t, base, y, images)
    ensures t.IsPlain()
    ensures if t.oneRowRegions || y >= 2 then Scrolled(t.grid, base, y - 1, images) else t.grid == Overrun(base, images)
  {
  }

  /** The screen after lines were inserted above row y. */
  ghost predicate AreInserted(r: Terminal, base: Grid, y: nat, images: seq<Line>)
    requires 0 < y < |base|
  {
    if r.oneRowRegions || y >= 2 then Scrolled(r.grid, base, y - 1, images) else r.grid == Overrun(base, images)
  }

  /** Every line that ended up over the viewport looks like the viewport's row there. */
  predicate LooksUntouched(images: seq<Line>, shown: Buffer, screenHeight: nat, p: Palette)
    requires shown.IsSized()
  {
    var k := Pushed(|images|, screenHeight);
    forall i :: 0 <= i < shown.area.height && i + k < |images| ==> Shows(images[i + k], shown.RowAt(i), p)
  }

  /** The viewport survives the lines inserted above it exactly when the scroll region was
      taken, or each row that was written over looks as before. */
  lemma SurvivesExactly(t: Terminal, r: Terminal, shown: Buffer, images: seq<Line>, p: Palette)
    requires Mirrors(t, shown, p) && 0 < shown.area.y && shown.area.height > 0
    requires r.Ok() && r.IsPlain() && r.FullRegion() && SameShape(r, t)
    requires AreInserted(r, t.grid, shown.area.y, images)
    ensures Mirrors(r, shown, p)
            <==> r.oneRowRegions || shown.area.y >= 2 || LooksUntouched(images, shown, |t.grid|, p)
  {
    hide Shows, Buffer.IsWellFormed, Buffer.RowAt;
    var y := shown.area.y;
    if r.oneRowRegions || y >= 2 {
      assert forall i :: y <= i < |t.grid| ==> r.grid[i] == t.grid[i];
    } else {
      var k := Pushed(|images|, |t.grid|);
      forall j | 1 <= j <= shown.area.height ensures r.grid[j] == if j - 1 + k < |images| then images[j - 1 + k] else t.grid[j] {
      }
    }
  }

  /** What inserting lines above row y, where the viewport was pushed, has done. */
  ghost predicate LinesInserted(t: Terminal, r: Terminal, shown: Buffer, y: nat, images: seq<Line>, p: Palette)
    requires shown.IsSized() && SameShape(r, t) && shown.area.y <= y && y + shown.area.height <= |t.grid|
  {
    && (Mirrors(r, shown.(area := shown.area.(y := y)), p)
        <==> r.oneRowRegions || y >= 2 || LooksUntouched(images, shown, |t.grid|, p))
    && (!(r.oneRowRegions || y >= 2) ==> y == shown.area.y && r.grid == Overrun(t.grid, images))
    && (r.oneRowRegions || y >= 2 ==>
          && (forall i :: y <= i < y + shown.area.height ==> r.grid[i] == t.grid[i - (y - shown.area.y)])
          && Newest(r.grid, t.grid[..shown.area.y] + Repeated(BlankLine(t.width, Reset), y - shown.area.y) + images, y))
  }

  lemma InsertedExactly(t: Terminal, r: Terminal, shown: Buffer, lowered: Grid, images: seq<Line>, y: nat, p: Palette)
    requires Mirrors(t, shown, p) && r.Ok() && r.IsPlain() && r.FullRegion() && SameShape(r, t)
    requires 0 < shown.area.y <= y && shown.area.height > 0 && y + shown.area.height <= |t.grid|
    requires Lowered(lowered, t.grid, shown.area.y, y - shown.area.y, BlankLine(t.width, Reset)) && |lowered| == |t.grid|
    requires AreInserted(r, lowered, y, images)
    ensures LinesInserted(t, r, shown, y, images, p)
  {
    hide BlankLine, Shows, LooksUntouched, Overrun, Lowered, Scrolled, Newest, Repeated;
    if r.oneRowRegions || y >= 2 {
      InsertedMirrors(t, r, shown, lowered, images, y, p);
    } else {
      LoweredByNone(lowered, t.grid, y, BlankLine(t.width, Reset));
      SurvivesExactly(t, r, shown, images, p);
    }
  }

  lemma ClearDownEffect(t: Terminal, y: nat)
    requires t.Ok() && t.IsPlain() && y < |t.grid|
    ensures var r := ExecAll(t, [MoveTo(0, y), ClearDown]);
            && r == t.(grid := r.grid, x := 0, y := y)
            && forall i :: 0 <= i < |r.grid| ==> r.grid[i] == if i < y then t.grid[i] else BlankLine(t.width, Reset)
  {
    hide ExecAll, ClearFrom, BlankLine;
    assert [MoveTo(0, y), ClearDown] == [MoveTo(0, y)] + [ClearDown];
    ExecConcat(t, [MoveTo(0, y)], [ClearDown]);
    ExecOne(t, MoveTo(0, y));
    ExecOne(t.(x := 0, y := y), ClearDown);
    ClearWhole(t.grid[y]);
  }

  lemma ClearAllEffect(t: Terminal)
    requires t.Ok() && t.IsPlain()
    ensures var r := ExecAll(t, [ClearAll, MoveTo(0, 0)]);
            && r == t.(grid := r.grid, x := 0, y := 0)
            && forall i :: 0 <= i < |r.grid| ==> r.grid[i] == BlankLine(t.width, Reset)
  {
    hide ExecAll, BlankLine;
    assert [ClearAll, MoveTo(0, 0)] == [ClearAll] + [MoveTo(0, 0)];
    ExecConcat(t, [ClearAll], [MoveTo(0, 0)]);
    ExecOne(t, ClearAll);
    ExecOk(t, ClearAll);
    ExecOne(Exec(t, ClearAll), MoveTo(0, 0));
    BlankRow(t.width);
  }

  // ----------------------------------------------------------- single operations

  lemma MoveEffect(t: Terminal, x: nat, y: nat)
    requires t.Ok()
    ensures ExecAll(t, [MoveTo(x, y)]) == t.(x := Least(x, t.width - 1), y := Least(y, |t.grid| - 1))
  {
    hide BlankLine, ScrollUp, ScrollDown, ClearFrom, BlankRows, Overwrite, ExecAll;
    ExecOne(t, MoveTo(x, y));
  }

  lemma RegionEffect(t: Terminal, first: nat, last: nat)
    requires t.Ok()
    ensures ExecAll(t, [SetRegion(first, last)]) ==
            if 1 <= first <= last <= |t.grid| && (first < last || t.oneRowRegions) then t.(top := first - 1, bottom := last - 1, x := 0, y := 0)
            else t
  {
    hide BlankLine, ScrollUp, ScrollDown, ClearFrom, BlankRows, Overwrite, ExecAll;
    ExecOne(t, SetRegion(first, last));
  }

  /** At the bottom of the rows above last. */
  lemma EnterRegion(t: Terminal, first: nat, last: nat)
    requires t.Ok() && t.IsPlain() && first < last
    ensures ExecAll(t, [SetRegion(first + 1, last)]).Ok()
    ensures var r := ExecAll(ExecAll(t, [SetRegion(first + 1, last)]), [MoveTo(0, last - 1)]);
            && r.Ok() && r.IsPlain() && SameShape(r, t) && r.grid == t.grid
            && (first == 0 && 1 < last <= |t.grid| ==> r.top == 0 && r.bottom == last - 1 == r.y)
  {
    hide ExecAll;
    RegionEffect(t, first + 1, last);
    MoveEffect(ExecAll(t, [SetRegion(first + 1, last)]), 0, last - 1);
  }

  lemma ResetEffect(t: Terminal)
    requires t.Ok()
    ensures ExecAll(t, [ResetRegion]) == t.(top := 0, bottom := |t.grid| - 1, x := 0, y := 0)
  {
    hide BlankLine, ScrollUp, ScrollDown, ClearFrom, BlankRows, Overwrite, ExecAll;
    ExecOne(t, ResetRegion);
  }

  lemma RegionReset(t: Terminal)
    requires t.Ok() && t.IsPlain()
    ensures var r := ExecAll(t, [ResetRegion]);
            r.Ok() && r.IsPlain() && r.FullRegion() && r.grid == t.grid && SameShape(r, t)
  {
    ResetEffect(t);
  }

  lemma LineFeedEffect(t: Terminal)
    requires t.Ok() && t.IsPlain()
    ensures var r := ExecAll(t, [LineFeed]);
            && r.IsPlain() && r.top == t.top && r.bottom == t.bottom
            && (t.y == t.bottom ==> r.y == t.y && r.grid == ScrollUp(t.grid, t.top, t.bottom, BlankLine(t.width, Reset)))
  {
    hide ScrollUp, BlankLine;
    BlankRow(t.width);
    ExecOne(t, LineFeed);
  }

  lemma ReverseIndexEffect(t: Terminal)
    requires t.Ok() && t.IsPlain() && t.y == t.top
    ensures ExecAll(t, [ReverseIndex]) == t.(grid := ScrollDown(t.grid, t.top, t.bottom, BlankLine(t.width, Reset)))
  {
    hide ScrollDown, BlankLine;
    BlankRow(t.width);
    ExecOne(t, ReverseIndex);
  }
}
