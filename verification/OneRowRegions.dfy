/**
 Writing history above a viewport that starts on the second row. The scroll region is
 then the first row alone. A terminal that does not take such a region keeps the whole
 screen as its region, and the lines run down over the viewport.
 */
module OneRowRegions {
  import opened Wrappers
  import opened Cells
  import opened Screen
  import opened DiffRenderer
  import opened Tty
  import opened HistoryLines

  lemma ExecClearRow(t: Terminal, padding: nat)
    requires t.Ok() && t.IsPlain() && t.x == 0 && padding < t.width
    ensures ExecAll(t, [ClearLine] + [MoveToColumn(padding)]) == t.(grid := t.grid[t.y := BlankLine(t.width, Reset)], x := padding)
  {
    hide ExecAll, ClearFrom, BlankLine;
    ExecConcat(t, [ClearLine], [MoveToColumn(padding)]);
    ExecOne(t, ClearLine);
    ClearWhole(t.grid[t.y]);
    ExecOne(t.(grid := t.grid[t.y := BlankLine(t.width, Reset)]), MoveToColumn(padding));
  }

  lemma ExecReturnAndFeed(t: Terminal)
    requires t.Ok() && t.y != t.bottom && t.y + 1 < |t.grid|
    ensures ExecAll(t, [CarriageReturn]) == t.(x := 0)
    ensures ExecAll(t.(x := 0), [LineFeed]) == t.(x := 0, y := t.y + 1)
  {
    hide ExecAll, Exec;
    ReturnEffect(t);
    ExecOne(t, CarriageReturn);
    var u := t.(x := 0);
    FeedEffect(u);
    ExecOne(u, LineFeed);
  }

  /** With the cursor above the bottom of the region, a line feed only moves down. */
  lemma ExecLowerNewRow(t: Terminal, padding: nat)
    requires t.Ok() && t.IsPlain() && t.y != t.bottom && t.y + 1 < |t.grid| && padding < t.width
    ensures ExecAll(t, NewRowOps(padding)) == t.(grid := t.grid[t.y + 1 := BlankLine(t.width, Reset)], x := padding, y := t.y + 1)
  {
    hide ExecAll, Exec, BlankLine;
    var rest := [ClearLine] + [MoveToColumn(padding)];
    var u := t.(x := 0);
    ExecReturnAndFeed(t);
    ExecConcat(t, [CarriageReturn], [LineFeed] + rest);
    ExecConcat(u, [LineFeed], rest);
    ExecClearRow(u.(y := t.y + 1), padding);
  }

  lemma ExecLowerRow(t: Terminal, line: HistoryLine, padding: nat, p: Palette)
    requires t.Ok() && t.IsPlain() && t.y != t.bottom && t.y + 1 < |t.grid| && padding < t.width && FitsWidth(line, padding, t.width, p)
    ensures var r := ExecAll(t, NewRowOps(padding) + LineOps(line, p));
            && r.grid == t.grid[t.y + 1 := LineImage(line, padding, t.width, p)]
            && r.IsPlain() && r.y == t.y + 1 && r.top == t.top && r.bottom == t.bottom
  {
    hide ExecAll, NewRowOps, LineOps, SpansCells, Printed, BlankLine;
    ExecConcat(t, NewRowOps(padding), LineOps(line, p));
    ExecLowerNewRow(t, padding);
    ExecLine(ExecAll(t, NewRowOps(padding)), line, p);
  }

  /** How many of n lines that start on the second row push the screen up. */
  function Pushed(n: nat, height: nat): nat {
    if n + 1 > height then n + 1 - height else 0
  }

  /** The screen when n lines run down from the second row, and push everything up once
      they reach the bottom. */
  function Overrun(base: Grid, images: seq<Line>): (r: Grid)
    ensures |r| == |base|
  {
    var n := |images|;
    var k := Pushed(n, |base|);
    seq(|base|, i requires 0 <= i < |base| => if 0 < i + k <= n then images[i + k - 1] else base[i])
  }

  lemma OverrunStep(base: Grid, images: seq<Line>, k: nat)
    requires k < |images| && |base| > 1
    ensures var r := Overrun(base, images[..k]);
            Overrun(base, images[..k + 1]) ==
            if k + 1 < |base| then r[k + 1 := images[k]] else ScrollUp(r, 0, |base| - 1, images[k])
  {
    var r, next := Overrun(base, images[..k]), Overrun(base, images[..k + 1]);
    assert forall i :: 0 <= i < k ==> images[..k][i] == images[i];
    assert forall i :: 0 <= i <= k ==> images[..k + 1][i] == images[i];
    var other := if k + 1 < |base| then r[k + 1 := images[k]] else ScrollUp(r, 0, |base| - 1, images[k]);
    forall i | 0 <= i < |base| ensures next[i] == other[i] {
    }
  }

  lemma OverrunNone(base: Grid)
    ensures Overrun(base, []) == base
  {
  }

  /** Where writing the lines above row y has got: they scroll the rows above it, where
      the region was taken, and run down the screen where it was not. */
  ghost predicate Appending(t: Terminal, base: Grid, y: nat, images: seq<Line>)
    requires 0 < y < |base|
  {
    && t.IsPlain() && t.top == 0
    && if t.oneRowRegions || y >= 2 then
         t.bottom == y - 1 == t.y && Scrolled(t.grid, base, y - 1, images)
       else
         t.bottom == |base| - 1 && t.y == Least(|images|, |base| - 1) && t.grid == Overrun(base, images)
  }

  /** One more line. */
  lemma AppendStep(t: Terminal, base: Grid, y: nat, line: HistoryLine, images: seq<Line>, k: nat, padding: nat, p: Palette)
    requires t.Ok() && 0 < y < |base| == |t.grid| && k < |images| && padding < t.width && FitsWidth(line, padding, t.width, p)
    requires images[k] == LineImage(line, padding, t.width, p) && Appending(t, base, y, images[..k])
    ensures Appending(ExecAll(t, NewRowOps(padding) + LineOps(line, p)), base, y, images[..k + 1])
  {
    hide ExecAll, NewRowOps, LineOps, LineImage, FitsWidth, Scrolled, Overrun, ScrollUp;
    if t.oneRowRegions || y >= 2 {
      ExecHistoryLine(t, line, padding, p);
      AppendedMany(t.grid, base, y - 1, images, k);
    } else {
      OverrunStep(base, images, k);
      if k + 1 < |base| {
        ExecLowerRow(t, line, padding, p);
      } else {
        ExecHistoryLine(t, line, padding, p);
      }
    }
  }
}
