/**
 Whole frames: give the viewport its height, bring the history up to date, draw. Over
 any run of frames the screen is the newest rows of one log above the rendered frame.
 */
module DrawCoordinator {
  import opened Wrappers
  import opened Cells
  import opened Screen
  import opened DiffRenderer
  import opened Tty
  import opened FrameFlush
  import opened HistoryLines
  import opened CustomTerminal

  datatype HistoryUpdate = HistoryUpdate(fullReplay: bool, lines: seq<HistoryLine>, leftPadding: nat)

  datatype Frame = Frame(height: nat, update: Option<HistoryUpdate>, render: Rect -> seq<Cell>, cursor: Option<(nat, nat)>)

  /** What stays the same through a run: the screen's size, the kind of terminal. */
  datatype Shape = Shape(width: nat, height: nat, oneRowRegions: bool) {
    predicate Ok() {
      width > 0 && height > 0
    }
  }

  function ShapeOf(t: Terminal): Shape {
    Shape(t.width, |t.grid|, t.oneRowRegions)
  }

  /** The viewport of a frame: at the bottom, as high as asked for if it fits. */
  function ViewportFor(height: nat, shape: Shape): Rect
    requires shape.Ok()
  {
    var h := Clamped(height, shape.height);
    Rect(0, shape.height - h, shape.width, h)
  }

  /** At the bottom of the screen and as wide, as high as asked for, but at least one row
      and at most all of them. */
  lemma ViewportIs(height: nat, shape: Shape)
    requires shape.Ok()
    ensures var h := if height == 0 then 1 else if height > shape.height then shape.height else height;
            ViewportFor(height, shape) == Rect(0, shape.height - h, shape.width, h)
  {
  }

  predicate AtBottom(viewport: Rect, screenHeight: nat) {
    viewport.height == 0 || Bottom(viewport) == screenHeight
  }

  predicate LinesFit(update: HistoryUpdate, width: nat, p: Palette)
    requires width > 0
  {
    forall line :: line in update.lines ==> FitsWidth(line, Least(update.leftPadding, width - 1), width, p)
  }

  function Rendered(frame: Frame, shape: Shape): Buffer
    requires shape.Ok()
  {
    var area := ViewportFor(frame.height, shape);
    Buffer(area, frame.render(area))
  }

  ghost predicate HistoryFits(frame: Frame, shape: Shape, p: Palette) {
    shape.Ok() && (frame.update.Some? ==> LinesFit(frame.update.value, shape.width, p))
  }

  /** What is asked of a frame: rendered cells that fit, history lines no wider than the
      screen, and no history above a viewport that starts on the second row, on a
      terminal without one-row scroll regions. */
  ghost predicate Drawable(frame: Frame, shape: Shape, p: Palette) {
    && HistoryFits(frame, shape, p)
    && Rendered(frame, shape).IsWellFormed()
    && (frame.update.Some? ==> shape.oneRowRegions || Rendered(frame, shape).area.y != 1 || frame.update.value.lines == [])
  }

  /** What is left of a buffer when a frame is drawn: nothing, if the viewport has
      changed or the screen was cleared for a replay. */
  function Compared(b: Buffer, frame: Frame, shape: Shape): (r: Buffer)
    requires shape.Ok()
    ensures b.IsSized() ==> r.IsSized()
    ensures r.area == ViewportFor(frame.height, shape)
  {
    var area := ViewportFor(frame.height, shape);
    if b.area != area || (frame.update.Some? && frame.update.value.fullReplay) then EmptyBuffer(area) else b
  }

  /** What the screen shows after a frame, when it showed shown and the frame before was
      previous. */
  function RealNext(shown: Buffer, previous: Buffer, frame: Frame, shape: Shape): (drawn: Buffer)
    requires shape.Ok() && shown.IsSized() && previous.IsSized() && Rendered(frame, shape).IsSized()
    ensures drawn.IsSized() && drawn.area == ViewportFor(frame.height, shape)
  {
    RealBuffer(Compared(shown, frame, shape), Compared(previous, frame, shape), Rendered(frame, shape))
  }

  // ------------------------------------------------------------- the log of history

  /** What a history update adds; a full replay starts over on blank rows. A viewport
      that fills the screen leaves no row to write history to. */
  function Updated(log: seq<Line>, update: HistoryUpdate, y: nat, width: nat, p: Palette): (r: seq<Line>)
    requires width > 0 && LinesFit(update, width, p)
    ensures |log| >= y ==> |r| >= y
  {
    var kept := if update.fullReplay then Repeated(BlankLine(width, Reset), y) else log;
    if y == 0 then kept else kept + Images(update.lines, Least(update.leftPadding, width - 1), width, p)
  }

  ghost function NextLog(log: seq<Line>, previous: Rect, frame: Frame, shape: Shape, p: Palette): (r: seq<Line>)
    requires HistoryFits(frame, shape, p) && previous.y <= |log|
    ensures |r| >= ViewportFor(frame.height, shape).y
  {
    var y := ViewportFor(frame.height, shape).y;
    var resized := AboveAfterResize(log, previous, y, shape.width);
    if frame.update.None? then resized else Updated(resized, frame.update.value, y, shape.width, p)
  }

  function ViewportAfter(start: Rect, frames: seq<Frame>, shape: Shape): Rect
    requires shape.Ok()
  {
    if frames == [] then start else ViewportFor(frames[|frames| - 1].height, shape)
  }

  /** Everything ever above the viewport, oldest first, beginning with the rows above
      the viewport at the start. */
  ghost function LogAfter(above: seq<Line>, start: Rect, frames: seq<Frame>, shape: Shape, p: Palette): (log: seq<Line>)
    requires shape.Ok() && start.y == |above| && forall frame :: frame in frames ==> HistoryFits(frame, shape, p)
    ensures |log| >= ViewportAfter(start, frames, shape).y
    decreases |frames|
  {
    hide HistoryFits, ViewportFor;
    if frames == [] then above
    else
      var before, last := frames[..|frames| - 1], frames[|frames| - 1];
      NextLog(LogAfter(above, start, before, shape, p), ViewportAfter(start, before, shape), last, shape, p)
  }

  /** The newest of a part that ends the log are the newest of the log. */
  lemma NewestOfEnd(r: Grid, part: seq<Line>, all: seq<Line>, n: nat)
    requires |part| <= |all| && all[|all| - |part|..] == part && Newest(r, part, n)
    ensures Newest(r, all, n)
  {
    assert all[|all| - n..] == part[|part| - n..];
  }

  lemma NewestAfterResize(r: Grid, base: Grid, log: seq<Line>, previous: Rect, y: nat, width: nat)
    requires previous.y <= |base| && previous.y <= |log| && Newest(base, log, previous.y)
    requires Newest(r, AboveAfterResize(base[..previous.y], previous, y, width), y)
    ensures Newest(r, AboveAfterResize(log, previous, y, width), y)
  {
    hide BlankLine, Repeated, Newest;
    var kept, k := Kept(previous, y), |log| - previous.y;
    var blanks := Repeated(BlankLine(width, Reset), if y > kept then y - kept else 0);
    var above := base[..previous.y];
    KeptEnd(base, log, previous.y, kept, blanks);
    assert |above| - previous.y + kept == kept;
    var near, all := above[..kept] + blanks, log[..k + kept] + blanks;
    assert AboveAfterResize(above, previous, y, width) == near && AboveAfterResize(log, previous, y, width) == all;
    assert |all| - |near| == k;
    NewestOfEnd(r, near, all, y);
  }

  /** What is kept of the rows on the screen ends what is kept of the log. */
  lemma KeptEnd(base: Grid, log: seq<Line>, y: nat, kept: nat, blanks: seq<Line>)
    requires kept <= y && Newest(base, log, y)
    ensures var k := |log| - y;
            var all := log[..k + kept] + blanks;
            all[k..] == base[..y][..kept] + blanks
  {
    var k := |log| - y;
    var head := log[..k + kept];
    assert head[k..] == log[k..][..kept] == base[..y][..kept];
    assert (head + blanks)[k..] == head[k..] + blanks;
  }

  lemma NewestAfterInsert(r: Grid, base: Grid, log: seq<Line>, y: nat, blank: Line, images: seq<Line>)
    requires y <= |base| && Newest(base, log, y) && Newest(r, base[..y] + Repeated(blank, 0) + images, y)
    ensures Newest(r, log + images, y)
  {
    assert base[..y] + Repeated(blank, 0) == base[..y];
    assert (log + images)[|log| - y..] == log[|log| - y..] + images;
    NewestOfEnd(r, base[..y] + images, log + images, y);
  }

  lemma NewestAfterClear(r: Grid, y: nat, blank: Line)
    requires y <= |r| && forall i :: 0 <= i < |r| ==> r[i] == blank
    ensures Newest(r, Repeated(blank, y), y)
  {
    assert r[..y] == Repeated(blank, y)[0..];
  }

  lemma NewestSame(r: Grid, base: Grid, log: seq<Line>, y: nat)
    requires |r| == |base| && Newest(base, log, y) && forall i :: 0 <= i < y ==> r[i] == base[i]
    ensures Newest(r, log, y)
  {
    assert r[..y] == base[..y];
  }

  // -------------------------------------------------------------------- the frames

  /** `draw_frame`. Whatever was lost before: history is right, and the viewport shows
      the frame, perhaps without some of its bold. */
  method DrawFrame(terminal: CustomTerminal, frame: Frame, ghost log: seq<Line>)
    requires terminal.Valid() && Drawable(frame, ShapeOf(terminal.tty), terminal.palette)
    requires AtBottom(terminal.viewport, |terminal.tty.grid|)
    requires terminal.viewport.y <= |log| && Newest(terminal.tty.grid, log, terminal.viewport.y)
    modifies terminal
    ensures terminal.Valid() && ShapeOf(terminal.tty) == old(ShapeOf(terminal.tty))
    ensures terminal.viewport == ViewportFor(frame.height, ShapeOf(terminal.tty))
    ensures var screenHeight := |terminal.tty.grid|;
            var h := if frame.height == 0 then 1 else if frame.height > screenHeight then screenHeight else frame.height;
            terminal.viewport == Rect(0, screenHeight - h, terminal.tty.width, h)
    ensures terminal.PreviousBuffer() == Rendered(frame, ShapeOf(terminal.tty)) && Rendered(frame, ShapeOf(terminal.tty)).IsSized()
    ensures old(terminal.shown).IsSized() && old(terminal.PreviousBuffer()).IsSized()
    ensures terminal.shown == RealNext(old(terminal.shown), old(terminal.PreviousBuffer()), frame, ShapeOf(terminal.tty))
    ensures terminal.shown.IsSized() && ShowsBuffer(terminal.tty.grid, terminal.shown, terminal.palette)
    ensures ShowsBuffer(terminal.tty.grid, Rendered(frame, ShapeOf(terminal.tty)), terminal.palette)
            <==> terminal.shown == Rendered(frame, ShapeOf(terminal.tty))
    ensures Newest(terminal.tty.grid, NextLog(log, old(terminal.viewport), frame, ShapeOf(terminal.tty), terminal.palette), terminal.viewport.y)
  {
    hide Mirrors, Shows, BlankLine, LinesFit, Newest, Buffer.IsWellFormed, AboveAfterResize;
    hide ShowsBuffer, EmptyBuffer, RealBuffer, BufferMayLackBold, DiffCommands, LastPut, Terminal.Ok, ViewportFor;
    terminal.ValidFacts();
    EnsuredIsFor(terminal.viewport, frame.height, ShapeOf(terminal.tty));
    ViewportIs(frame.height, ShapeOf(terminal.tty));
    ghost var before := terminal.tty.grid;
    terminal.EnsureViewportHeight(frame.height);
    terminal.ValidFacts();
    var area := terminal.viewport;
    NewestAfterResize(terminal.tty.grid, before, log, old(terminal.viewport), area.y, terminal.tty.width);
    ghost var above := AboveAfterResize(log, old(terminal.viewport), area.y, terminal.tty.width);
    if frame.update.Some? {
      above := UpdateHistory(terminal, frame.update.value, above);
    }
    assert terminal.PreviousBuffer() == Compared(old(terminal.PreviousBuffer()), frame, ShapeOf(terminal.tty));
    assert terminal.shown == Compared(old(terminal.shown), frame, ShapeOf(terminal.tty));
    Render(terminal, frame, above);
  }

  /** The frame itself, in a viewport that has its place. */
  method Render(terminal: CustomTerminal, frame: Frame, ghost above: seq<Line>)
    requires terminal.Valid() && Drawable(frame, ShapeOf(terminal.tty), terminal.palette)
    requires terminal.viewport == ViewportFor(frame.height, ShapeOf(terminal.tty))
    requires Newest(terminal.tty.grid, above, terminal.viewport.y)
    modifies terminal
    ensures terminal.Valid() && ShapeOf(terminal.tty) == old(ShapeOf(terminal.tty)) && terminal.viewport == old(terminal.viewport)
    ensures terminal.PreviousBuffer() == Rendered(frame, ShapeOf(terminal.tty)) && Rendered(frame, ShapeOf(terminal.tty)).IsSized()
    ensures old(terminal.shown).IsSized() && old(terminal.PreviousBuffer()).IsSized() && old(terminal.shown).area == terminal.viewport
    ensures terminal.shown == RealBuffer(old(terminal.shown), old(terminal.PreviousBuffer()), Rendered(frame, ShapeOf(terminal.tty)))
    ensures terminal.shown.IsSized() && ShowsBuffer(terminal.tty.grid, terminal.shown, terminal.palette)
    ensures ShowsBuffer(terminal.tty.grid, Rendered(frame, ShapeOf(terminal.tty)), terminal.palette)
            <==> terminal.shown == Rendered(frame, ShapeOf(terminal.tty))
    ensures Newest(terminal.tty.grid, above, terminal.viewport.y)
  {
    hide Mirrors, Shows, Newest, ShowsBuffer, RealBuffer, BufferMayLackBold, DiffCommands, LastPut, Terminal.Ok, ViewportFor;
    terminal.ValidFacts();
    RenderedIsSized(frame, ShapeOf(terminal.tty), terminal.palette);
    ghost var updated := terminal.tty;
    terminal.Draw(frame.render(terminal.viewport), frame.cursor);
    NewestSame(terminal.tty.grid, updated.grid, above, terminal.viewport.y);
    terminal.ValidFacts();
    MirrorsIsShowsBuffer(terminal.tty, terminal.shown, terminal.palette);
  }

  lemma EnsuredIsFor(viewport: Rect, height: nat, shape: Shape)
    requires shape.Ok() && viewport.x == 0 && AtBottom(viewport, shape.height)
    ensures var area := EnsuredArea(viewport, height, shape.width, shape.height);
            area == ViewportFor(height, shape) && Bottom(area) == shape.height && area.height > 0
  {
  }

  lemma RenderedIsSized(frame: Frame, shape: Shape, p: Palette)
    requires Drawable(frame, shape, p)
    ensures Rendered(frame, shape).IsSized()
  {
  }

  method UpdateHistory(terminal: CustomTerminal, update: HistoryUpdate, ghost log: seq<Line>) returns (ghost updated: seq<Line>)
    requires terminal.Valid() && Bottom(terminal.viewport) == |terminal.tty.grid| && terminal.viewport.height > 0
    requires terminal.tty.width > 0 && LinesFit(update, terminal.tty.width, terminal.palette)
    requires terminal.tty.oneRowRegions || terminal.viewport.y != 1 || update.lines == []
    requires Newest(terminal.tty.grid, log, terminal.viewport.y)
    modifies terminal
    ensures terminal.Valid() && SameShape(terminal.tty, old(terminal.tty)) && terminal.viewport == old(terminal.viewport)
    ensures terminal.PreviousBuffer() == if update.fullReplay then EmptyBuffer(terminal.viewport) else old(terminal.PreviousBuffer())
    ensures terminal.shown == if update.fullReplay then EmptyBuffer(terminal.viewport) else old(terminal.shown)
    ensures updated == Updated(log, update, terminal.viewport.y, terminal.tty.width, terminal.palette)
    ensures Newest(terminal.tty.grid, updated, terminal.viewport.y)
  {
    hide Mirrors, Shows, BlankLine, FitsWidth, Newest, EmptyBuffer, LinesInserted, BufferMayLackBold;
    terminal.ValidFacts();
    ghost var y, width := terminal.viewport.y, terminal.tty.width;
    updated := log;
    if update.fullReplay {
      terminal.ClearForHistoryReplay();
      updated := Repeated(BlankLine(width, Reset), y);
      NewestAfterClear(terminal.tty.grid, y, BlankLine(width, Reset));
    }
    ghost var base := terminal.tty.grid;
    ghost var shown, tty := terminal.shown, terminal.tty;
    terminal.InsertHistoryLines(update.lines, update.leftPadding);
    ghost var images := Images(update.lines, Least(update.leftPadding, width - 1), width, terminal.palette);
    if y > 0 {
      if update.lines == [] {
        assert updated + images == updated;
      } else {
        InsertedInPlace(tty, terminal.tty, shown, images, terminal.palette);
        NewestAfterInsert(terminal.tty.grid, base, updated, y, BlankLine(width, Reset), images);
      }
      updated := updated + images;
    }
  }

  /** Above a viewport at the bottom no room has to be made. */
  lemma InsertedInPlace(t: Terminal, r: Terminal, shown: Buffer, images: seq<Line>, p: Palette)
    requires shown.IsSized() && SameShape(r, t) && Bottom(shown.area) <= |t.grid|
    requires LinesInserted(t, r, shown, shown.area.y, images, p) && (r.oneRowRegions || shown.area.y >= 2)
    ensures Mirrors(r, shown, p)
    ensures Newest(r.grid, t.grid[..shown.area.y] + Repeated(BlankLine(t.width, Reset), 0) + images, shown.area.y)
  {
    hide Mirrors, Newest, BlankLine, LooksUntouched;
    assert shown.(area := shown.area.(y := shown.area.y)) == shown;
  }

  lemma LogStep(above: seq<Line>, start: Rect, frames: seq<Frame>, k: nat, shape: Shape, p: Palette)
    requires k < |frames| && shape.Ok() && start.y == |above| && forall frame :: frame in frames ==> HistoryFits(frame, shape, p)
    ensures ViewportAfter(start, frames[..k + 1], shape) == ViewportFor(frames[k].height, shape)
    ensures LogAfter(above, start, frames[..k + 1], shape, p) ==
            NextLog(LogAfter(above, start, frames[..k], shape, p), ViewportAfter(start, frames[..k], shape), frames[k], shape, p)
  {
    hide HistoryFits, ViewportFor, NextLog;
    assert frames[..k + 1][..k] == frames[..k];
  }

  lemma LogOfNothing(grid: Grid, start: Rect, shape: Shape, p: Palette)
    requires shape.Ok() && start.y <= |grid|
    ensures LogAfter(grid[..start.y], start, [], shape, p) == grid[..start.y]
    ensures Newest(grid, grid[..start.y], start.y)
  {
  }

  ghost predicate AllDrawable(frames: seq<Frame>, shape: Shape, p: Palette) {
    shape.Ok() && forall frame :: frame in frames ==> Drawable(frame, shape, p)
  }

  lemma DrawableUpTo(frames: seq<Frame>, k: nat, shape: Shape, p: Palette)
    requires k <= |frames| && AllDrawable(frames, shape, p)
    ensures AllDrawable(frames[..k], shape, p)
    ensures forall frame :: frame in frames[..k] ==> HistoryFits(frame, shape, p)
    ensures k < |frames| ==> Drawable(frames[k], shape, p) && Rendered(frames[k], shape).IsSized()
  {
    assert k < |frames| ==> frames[k] in frames;
    assert forall frame :: frame in frames[..k] ==> frame in frames;
  }

  function ShownAfter(previous: Buffer, frames: seq<Frame>, shape: Shape): Buffer
    requires shape.Ok()
  {
    if frames == [] then previous else Rendered(frames[|frames| - 1], shape)
  }

  /** What the screen shows under the viewport after a run of frames. */
  ghost function RealAfter(shown: Buffer, previous: Buffer, frames: seq<Frame>, shape: Shape, p: Palette): (drawn: Buffer)
    requires shown.IsSized() && previous.IsSized() && AllDrawable(frames, shape, p)
    ensures drawn.IsSized() && ShownAfter(previous, frames, shape).IsSized()
    decreases |frames|
  {
    if frames == [] then shown
    else
      var n := |frames| - 1;
      DrawableUpTo(frames, n, shape, p);
      RealNext(RealAfter(shown, previous, frames[..n], shape, p), ShownAfter(previous, frames[..n], shape), frames[n], shape)
  }

  /** The screen after frame k of a run: above the viewport the newest rows of the log,
      and in it what RealAfter says, which is the frame rendered, perhaps without some
      of its bold. */
  ghost predicate Pictured(screen: Grid, above: seq<Line>, shown: Buffer, previous: Buffer, frames: seq<Frame>, k: nat, shape: Shape, p: Palette)
    requires shown.IsSized() && previous.IsSized() && previous.area.y == |above| && k < |frames| && AllDrawable(frames, shape, p)
  {
    DrawableUpTo(frames, k, shape, p);
    DrawableUpTo(frames, k + 1, shape, p);
    var drawn, rendered := RealAfter(shown, previous, frames[..k + 1], shape, p), Rendered(frames[k], shape);
    && Newest(screen, LogAfter(above, previous.area, frames[..k + 1], shape, p), rendered.area.y)
    && ShowsBuffer(screen, drawn, p) && BufferMayLackBold(drawn, rendered)
    && (ShowsBuffer(screen, rendered, p) <==> drawn == rendered)
  }

  /** The terminal is where a run has brought it. */
  ghost predicate IsAt(terminal: CustomTerminal, above: seq<Line>, shown: Buffer, previous: Buffer, frames: seq<Frame>, shape: Shape)
    requires shown.IsSized() && previous.IsSized() && previous.area.y == |above| && AllDrawable(frames, shape, terminal.palette)
    reads terminal
  {
    && terminal.Valid() && ShapeOf(terminal.tty) == shape
    && terminal.viewport == ViewportAfter(previous.area, frames, shape)
    && terminal.PreviousBuffer() == ShownAfter(previous, frames, shape)
    && terminal.shown == RealAfter(shown, previous, frames, shape, terminal.palette)
    && Newest(terminal.tty.grid, LogAfter(above, previous.area, frames, shape, terminal.palette), terminal.viewport.y)
  }

  lemma AtBottomAfter(start: Rect, frames: seq<Frame>, shape: Shape)
    requires shape.Ok() && AtBottom(start, shape.height)
    ensures AtBottom(ViewportAfter(start, frames, shape), shape.height)
  {
  }

  lemma RealStep(shown: Buffer, previous: Buffer, frames: seq<Frame>, k: nat, shape: Shape, p: Palette)
    requires k < |frames| && shown.IsSized() && previous.IsSized() && AllDrawable(frames, shape, p)
    ensures AllDrawable(frames[..k], shape, p) && AllDrawable(frames[..k + 1], shape, p) && Rendered(frames[k], shape).IsSized()
    ensures ShownAfter(previous, frames[..k + 1], shape) == Rendered(frames[k], shape)
    ensures ShownAfter(previous, frames[..k], shape).IsSized()
    ensures RealAfter(shown, previous, frames[..k + 1], shape, p) ==
            RealNext(RealAfter(shown, previous, frames[..k], shape, p), ShownAfter(previous, frames[..k], shape), frames[k], shape)
  {
    hide AllDrawable, Rendered, RealNext;
    DrawableUpTo(frames, k, shape, p);
    DrawableUpTo(frames, k + 1, shape, p);
    assert frames[..k + 1][..k] == frames[..k];
    assert RealAfter(shown, previous, frames[..k], shape, p).IsSized();
  }

  /** One more frame of a run. */
  method DrawNext(terminal: CustomTerminal, ghost above: seq<Line>, ghost shown: Buffer, ghost previous: Buffer,
                  frames: seq<Frame>, k: nat, ghost shape: Shape)
    requires shown.IsSized() && previous.IsSized() && previous.area.y == |above| && k < |frames| && AllDrawable(frames, shape, terminal.palette)
    requires AllDrawable(frames[..k], shape, terminal.palette) && AllDrawable(frames[..k + 1], shape, terminal.palette)
    requires IsAt(terminal, above, shown, previous, frames[..k], shape) && AtBottom(previous.area, shape.height)
    modifies terminal
    ensures IsAt(terminal, above, shown, previous, frames[..k + 1], shape)
    ensures Pictured(terminal.tty.grid, above, shown, previous, frames, k, shape, terminal.palette)
  {
    hide Mirrors, Shows, Drawable, NextLog, LogAfter, Newest, RealNext, RealAfter, Rendered, AllDrawable;
    hide ViewportFor, AtBottom, ShowsBuffer, BufferMayLackBold;
    DrawableUpTo(frames, k, shape, terminal.palette);
    AllHistoryFits(frames, shape, terminal.palette);
    LogStep(above, previous.area, frames, k, shape, terminal.palette);
    RealStep(shown, previous, frames, k, shape, terminal.palette);
    AtBottomAfter(previous.area, frames[..k], shape);
    DrawFrame(terminal, frames[k], LogAfter(above, previous.area, frames[..k], shape, terminal.palette));
    RenderedArea(frames[k], shape);
  }

  lemma RenderedArea(frame: Frame, shape: Shape)
    requires shape.Ok()
    ensures Rendered(frame, shape).area == ViewportFor(frame.height, shape)
  {
  }

  lemma AllHistoryFits(frames: seq<Frame>, shape: Shape, p: Palette)
    requires AllDrawable(frames, shape, p)
    ensures shape.Ok() && forall frame :: frame in frames ==> HistoryFits(frame, shape, p)
  {
  }

  /** Any run of frames, from a new terminal or a viewport at the bottom, whatever they
      hold: after each of them the rows above the viewport are the newest of the log, and
      the viewport shows the frame but for bold that was lost; which, RealAfter says. */
  method DrawFrames(terminal: CustomTerminal, frames: seq<Frame>) returns (ghost screens: seq<Grid>)
    requires terminal.Valid() && AtBottom(terminal.viewport, |terminal.tty.grid|)
    requires terminal.viewport.y <= |terminal.tty.grid| && terminal.PreviousBuffer().IsSized() && terminal.shown.IsSized()
    requires AllDrawable(frames, ShapeOf(terminal.tty), terminal.palette)
    modifies terminal
    ensures terminal.Valid() && |screens| == |frames|
    ensures forall k :: 0 <= k < |frames| ==>
              Pictured(screens[k], old(terminal.tty.grid[..terminal.viewport.y]), old(terminal.shown), old(terminal.PreviousBuffer()),
                frames, k, old(ShapeOf(terminal.tty)), terminal.palette)
    ensures frames != [] ==> terminal.tty.grid == screens[|frames| - 1]
  {
    hide Mirrors, Shows, Pictured, AllDrawable, LogAfter, Newest, RealAfter, BufferMayLackBold;
    terminal.ValidFacts();
    ghost var above, shown, previous := terminal.tty.grid[..terminal.viewport.y], terminal.shown, terminal.PreviousBuffer();
    ghost var shape := ShapeOf(terminal.tty);
    AllHistoryFits(frames, shape, terminal.palette);
    assert frames[..0] == [];
    DrawableUpTo(frames, 0, shape, terminal.palette);
    LogOfNothing(terminal.tty.grid, previous.area, shape, terminal.palette);
    RealOfNothing(shown, previous, shape, terminal.palette);
    screens := [];
    for k := 0 to |frames|
      invariant AllDrawable(frames[..k], shape, terminal.palette)
      invariant IsAt(terminal, above, shown, previous, frames[..k], shape)
      invariant |screens| == k && (k > 0 ==> terminal.tty.grid == screens[k - 1])
      invariant forall i :: 0 <= i < k ==> Pictured(screens[i], above, shown, previous, frames, i, shape, terminal.palette)
    {
      DrawableUpTo(frames, k + 1, shape, terminal.palette);
      DrawNext(terminal, above, shown, previous, frames, k, shape);
      screens := screens + [terminal.tty.grid];
    }
  }

  lemma RealOfNothing(shown: Buffer, previous: Buffer, shape: Shape, p: Palette)
    requires shown.IsSized() && previous.IsSized() && shape.Ok()
    ensures AllDrawable([], shape, p) && RealAfter(shown, previous, [], shape, p) == shown
  {
  }

  /** Frames in which no cell is both bold and dim lose nothing: from a screen that lacks
      nothing, every frame of the run is shown exactly. */
  lemma {:induction false} NothingIsLost(previous: Buffer, frames: seq<Frame>, shape: Shape, p: Palette)
    requires previous.IsWellFormed() && previous.area.x == 0 && AllDrawable(frames, shape, p)
    requires forall frame :: frame in frames ==> OneIntensity(Rendered(frame, shape))
    ensures RealAfter(previous, previous, frames, shape, p) == ShownAfter(previous, frames, shape)
    decreases |frames|
  {
    hide Drawable, OneIntensity, RealBuffer, RowOk, Buffer.RowAt;
    if frames != [] {
      var n := |frames| - 1;
      var last := frames[n];
      DrawableUpTo(frames, n, shape, p);
      assert last in frames;
      NothingIsLost(previous, frames[..n], shape, p);
      var before := ShownAfter(previous, frames[..n], shape);
      assert n > 0 ==> frames[n - 1] in frames;
      DrawnIsWellFormed(frames, shape, p);
      EmptyIsWellFormed(ViewportFor(last.height, shape));
      OneIntensityIsShown(Compared(before, last, shape), Rendered(last, shape));
    }
  }

  lemma DrawnIsWellFormed(frames: seq<Frame>, shape: Shape, p: Palette)
    requires AllDrawable(frames, shape, p)
    ensures forall frame :: frame in frames ==> Rendered(frame, shape).IsWellFormed() && Rendered(frame, shape).area.x == 0
  {
  }
}
