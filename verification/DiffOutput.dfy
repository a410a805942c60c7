/**
 What exactly the diff renderer sends for two frames: one clear for each row that ends
 in nothing, and each column that has to be sent again once, in reading order.
 */
module DiffOutput {
  import opened Cells
  import opened DiffRenderer
  import opened FrameFlush

  /** Column x of row y has to be sent again: it is not the second half of a new wide
      symbol; it has changed, or was the second half of an old one; and something shows in
      it or behind it. The first column counts even in a row in which nothing shows. */
  ghost predicate IsStale(previous: Row, next: Row, x: nat)
    requires x < |previous| == |next|
  {
    && !(x > 0 && next[x - 1].symbol.Wide?)
    && (next[x] != previous[x] || (x > 0 && previous[x - 1].symbol.Wide?))
    && (x == 0 || exists c :: x <= c < |next| && IsVisible(next, c))
  }

  lemma StaleNeedsPut(previous: Row, next: Row, x: nat)
    requires x < |previous| == |next| && RowOk(next)
    ensures NeedsPut(previous, next, x) <==> IsStale(previous, next, x)
  {
    hide ClearStart, IsVisible, LastColumn, RowBackground;
    ClearStartIs(next);
    VisibleBounds(next);
    assert x < ClearStart(next) ==> IsVisible(next, ClearStart(next) - 1);
  }

  /** Row y is cleared from column x on: nothing shows from there to its end, but
      something does right in front. */
  ghost predicate IsTail(row: Row, x: nat) {
    && x < |row|
    && (forall c :: x <= c < |row| ==> !IsVisible(row, c))
    && (x > 0 ==> IsVisible(row, x - 1))
  }

  lemma TailIsClearStart(row: Row, x: nat)
    requires RowOk(row)
    ensures IsTail(row, x) <==> x == ClearStart(row) && x < |row|
  {
    hide ClearStart, IsVisible, RowBackground;
    ClearStartIs(row);
    var s := ClearStart(row);
    var lastShows, beforeShows := s > 0 && IsVisible(row, s - 1), 0 < x <= |row| && IsVisible(row, x - 1);
  }

  lemma {:induction false} PutsHave(previous: Buffer, next: Buffer, y: nat, x: nat, i: nat, c: nat)
    requires Comparable(previous, next)
    requires y <= next.area.height && x <= next.area.width && (y == next.area.height ==> x == 0)
    requires i < next.area.height && c < next.area.width && (i < y || (i == y && c < x))
    requires NeedsPut(previous.RowAt(i), next.RowAt(i), c)
    ensures Put(c, next.area.y + i, next.RowAt(i)[c]) in Puts(previous, next, next, y, x)
    decreases y, x
  {
    hide NeedsPut, Buffer.RowAt;
    if x > 0 {
      if i < y || c < x - 1 {
        PutsHave(previous, next, y, x - 1, i, c);
      }
    } else {
      PutsHave(previous, next, y - 1, next.area.width, i, c);
    }
  }

  lemma {:induction false} ClearsHave(next: Buffer, y: nat, i: nat)
    requires next.IsSized() && i < y <= next.area.height && ClearStart(next.RowAt(i)) < next.area.width
    ensures ClearToEnd(ClearStart(next.RowAt(i)), next.area.y + i, RowBackground(next.RowAt(i))) in Clears(next, y)
    decreases y
  {
    hide ClearStart, RowBackground, Buffer.RowAt;
    if i < y - 1 {
      ClearsHave(next, y - 1, i);
    }
  }

  /** The puts are the stale columns, each with its own new cell. */
  lemma PutExactly(previous: Buffer, next: Buffer, x: nat, row: nat, cell: Cell)
    requires Comparable(previous, next)
    ensures Put(x, row, cell) in DiffCommands(previous, next)
            <==> && next.area.y <= row < next.area.y + next.area.height && x < next.area.width
                 && var y := row - next.area.y;
                    cell == next.RowAt(y)[x] && IsStale(previous.RowAt(y), next.RowAt(y), x)
  {
    hide NeedsPut, IsStale, Clears, Puts, Buffer.RowAt, RowOk;
    var all, put := DiffCommands(previous, next), Put(x, row, cell);
    if put in all {
      var i :| 0 <= i < |all| && all[i] == put;
      DiffIs(previous, next, i);
      var y: nat, c: nat :| IsPutAt(put, previous, next, y, c);
      assert RowOk(next.RowAt(y));
      StaleNeedsPut(previous.RowAt(y), next.RowAt(y), x);
    } else if next.area.y <= row < next.area.y + next.area.height && x < next.area.width {
      var y := row - next.area.y;
      assert RowOk(next.RowAt(y));
      StaleNeedsPut(previous.RowAt(y), next.RowAt(y), x);
      if NeedsPut(previous.RowAt(y), next.RowAt(y), x) {
        PutsHave(previous, next, next.area.height, 0, y, x);
      }
    }
  }

  /** The clears are the tails of the rows, in the background of the last cell. */
  lemma ClearExactly(previous: Buffer, next: Buffer, x: nat, row: nat, bg: Color)
    requires Comparable(previous, next)
    ensures ClearToEnd(x, row, bg) in DiffCommands(previous, next)
            <==> && next.area.y <= row < next.area.y + next.area.height
                 && var line := next.RowAt(row - next.area.y);
                    IsTail(line, x) && bg == line[|line| - 1].bg
  {
    hide IsTail, Clears, Puts, Buffer.RowAt, RowOk, ClearStart;
    var all, clear := DiffCommands(previous, next), ClearToEnd(x, row, bg);
    if next.area.y <= row < next.area.y + next.area.height {
      var y := row - next.area.y;
      assert RowOk(next.RowAt(y));
      TailIsClearStart(next.RowAt(y), x);
      TailIsWithin(next.RowAt(y), x);
      if ClearStart(next.RowAt(y)) < next.area.width {
        ClearsHave(next, next.area.height, y);
      }
    }
    if clear in all {
      var i :| 0 <= i < |all| && all[i] == clear;
      DiffIs(previous, next, i);
    }
  }

  lemma TailIsWithin(row: Row, x: nat)
    ensures IsTail(row, x) ==> x < |row|
  {
  }

  ghost predicate InReadingOrder(puts: seq<DrawCommand>) {
    forall i, j :: 0 <= i < j < |puts| ==>
      puts[i].Put? && puts[j].Put? && (puts[i].y < puts[j].y || (puts[i].y == puts[j].y && puts[i].x < puts[j].x))
  }

  /** All clears come first, then the puts in reading order, so that none comes twice. */
  lemma PutsInOrder(previous: Buffer, next: Buffer)
    requires Comparable(previous, next)
    ensures DiffCommands(previous, next) == Clears(next, next.area.height) + Puts(previous, next, next, next.area.height, 0)
    ensures InReadingOrder(Puts(previous, next, next, next.area.height, 0))
  {
    PutsAscend(previous, next, next.area.height, 0);
  }

  lemma {:induction false} PutsAscend(previous: Buffer, next: Buffer, y: nat, x: nat)
    requires Comparable(previous, next)
    requires y <= next.area.height && x <= next.area.width && (y == next.area.height ==> x == 0)
    ensures InReadingOrder(Puts(previous, next, next, y, x))
    ensures forall c :: c in Puts(previous, next, next, y, x) ==>
              c.Put? && (c.y < next.area.y + y || (c.y == next.area.y + y && c.x < x))
    decreases y, x
  {
    hide NeedsPut, Buffer.RowAt;
    if x > 0 {
      PutsAscend(previous, next, y, x - 1);
      var puts, put := Puts(previous, next, next, y, x - 1), PutOf(previous, next, next, y, x - 1);
      hide Puts;
      assert forall i :: 0 <= i < |puts| ==> puts[i] in puts;
      assert Puts(previous, next, next, y, x) == puts + put by { PutsSnoc(previous, next, y, x - 1); }
    } else if y > 0 {
      PutsAscend(previous, next, y - 1, next.area.width);
    }
  }

  lemma PutsSnoc(previous: Buffer, next: Buffer, y: nat, x: nat)
    requires Comparable(previous, next) && y < next.area.height && x < next.area.width
    ensures Puts(previous, next, next, y, x + 1) == Puts(previous, next, next, y, x) + PutOf(previous, next, next, y, x)
  {
  }

  /** A frame drawn over itself sends no column again. */
  lemma SameFrame(b: Buffer)
    requires Comparable(b, b)
    ensures forall c :: c in DiffCommands(b, b) ==> c.ClearToEnd?
  {
    hide IsStale, Buffer.RowAt, DiffCommands;
    forall c | c in DiffCommands(b, b) && c.Put? ensures false {
      PutExactly(b, b, c.x, c.y, c.cell);
      NothingIsStale(b.RowAt(c.y - b.area.y), c.x);
    }
  }

  lemma NothingIsStale(row: Row, x: nat)
    requires x < |row|
    ensures !IsStale(row, row, x)
  {
  }
}
