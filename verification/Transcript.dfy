/**
 Transcript lines built from history cells: a blank line between cells, none inside a
 stream, and batches of cells appended one after the other.
 */
module Transcript {
  import opened Wrappers
  import opened Sequences
  import opened Text

  datatype LineMode = Live | Scrollback

  datatype HistoryKind = Message | Reasoning | Exploration | Search | Command | Patch | Tool | Notice

  datatype GapKey = GapKey(isEmpty: bool, isStreamContinuation: bool, kind: HistoryKind, streamItemId: Option<string>) {

    predicate ShouldGapBefore(previous: Option<GapKey>) {
      && !isEmpty && previous.Some? && !previous.value.isEmpty
      && (!isStreamContinuation || previous.value.streamItemId != streamItemId)
    }
  }

  /** A cell, and the lines it is drawn as at a given width. */
  datatype HistoryCell = HistoryCell(key: GapKey, live: nat -> seq<string>, scrollback: nat -> seq<string>) {

    function CellLines(width: nat, mode: LineMode): seq<string> {
      if mode.Live? then live(width) else scrollback(width)
    }
  }

  predicate ExtraToolGap(previous: Option<GapKey>, current: GapKey, mode: LineMode) {
    && mode.Live? && previous.Some?
    && previous.value.kind in {Message, Reasoning, Exploration, Search}
    && current.kind in {Command, Tool}
  }

  // ------------------------------------------------------------------ specification

  /** What a cell adds after the one before it. */
  function Block(previous: Option<GapKey>, cell: HistoryCell, width: nat, mode: LineMode): seq<string> {
    if cell.key.isEmpty then []
    else
      (if !cell.key.ShouldGapBefore(previous) then []
       else if ExtraToolGap(previous, cell.key, mode) then ["", ""]
       else [""])
      + cell.CellLines(width, mode)
  }

  function LastCell(cells: seq<HistoryCell>, previous: Option<GapKey>): Option<GapKey> {
    if cells == [] then previous else Some(cells[|cells| - 1].key)
  }

  function Lines(cells: seq<HistoryCell>, previous: Option<GapKey>, width: nat, mode: LineMode): seq<string> {
    if cells == [] then []
    else Block(previous, cells[0], width, mode) + Lines(cells[1..], Some(cells[0].key), width, mode)
  }

  /** The characters `str::trim` removes. */
  predicate IsSpace(c: char) {
    IsWhiteSpace(c as int)
  }

  predicate IsBlank(line: string) {
    forall c :: c in line ==> IsSpace(c)
  }

  function Trimmed(lines: seq<string>): seq<string> {
    if lines != [] && IsBlank(lines[|lines| - 1]) then Trimmed(lines[..|lines| - 1]) else lines
  }

  // ---------------------------------------------------------------------- the builder

  /** `build_transcript_lines`. Its check that anything came before is not needed: a gap
      already asks for a previous cell that was not empty. */
  method BuildTranscriptLines(cells: seq<HistoryCell>, width: nat, mode: LineMode, previousCell: Option<GapKey>, trimTrailingBlankLines: bool)
    returns (lines: seq<string>, lastCell: Option<GapKey>)
    ensures lastCell == if cells == [] then previousCell else Some(cells[|cells| - 1].key)
    ensures lines == if trimTrailingBlankLines then Trimmed(Lines(cells, previousCell, width, mode)) else Lines(cells, previousCell, width, mode)
  {
    hide Trimmed, Lines, ExtraToolGap;
    LinesOfNothing(previousCell, width, mode);
    lines := [];
    var previous := previousCell;
    var emittedAny := false;
    var hadPreviousContext := previousCell.Some?;
    assert cells[..0] == [];
    for i := 0 to |cells|
      invariant previous == LastCell(cells[..i], previousCell)
      invariant lines == Lines(cells[..i], previousCell, width, mode)
      invariant !emittedAny && !hadPreviousContext ==> previous.None? || previous.value.isEmpty
    {
      var cell := cells[i];
      assert cells[..i + 1] == cells[..i] + [cell];
      LinesConcat(cells[..i], [cell], previousCell, width, mode);
      OneCell(cell, previous, width, mode);
      if !cell.key.isEmpty {
        ghost var before, own := lines, cell.CellLines(width, mode);
        if (emittedAny || hadPreviousContext) && cell.key.ShouldGapBefore(previous) {
          lines := lines + [""];
          if ExtraToolGap(previous, cell.key, mode) {
            lines := lines + [""];
          }
        }
        Associative(before, [""], [""]);
        Associative(before, [""], own);
        Associative(before, ["", ""], own);
        Associative(before, [], own);
        lines := lines + cell.CellLines(width, mode);
        emittedAny := true;
      }
      previous := Some(cell.key);
    }
    assert cells[..|cells|] == cells;
    if trimTrailingBlankLines {
      lines := TrimTrailingBlankLines(lines);
    }
    lastCell := previous;
  }

  method TrimTrailingBlankLines(lines: seq<string>) returns (trimmed: seq<string>)
    ensures trimmed == Trimmed(lines)
  {
    trimmed := lines;
    while trimmed != [] && IsBlank(trimmed[|trimmed| - 1])
      invariant Trimmed(trimmed) == Trimmed(lines)
      decreases |trimmed|
    {
      trimmed := trimmed[..|trimmed| - 1];
    }
  }

  lemma OneCell(cell: HistoryCell, previous: Option<GapKey>, width: nat, mode: LineMode)
    ensures Lines([cell], previous, width, mode) == Block(previous, cell, width, mode)
  {
    assert [cell][1..] == [];
    assert Block(previous, cell, width, mode) + [] == Block(previous, cell, width, mode);
  }

  // --------------------------------------------------------------------- properties

  /** Appending: the lines of a + b are those of a, then those of b after a's last cell. */
  lemma {:induction false} LinesConcat(a: seq<HistoryCell>, b: seq<HistoryCell>, previous: Option<GapKey>, width: nat, mode: LineMode)
    ensures Lines(a + b, previous, width, mode) == Lines(a, previous, width, mode) + Lines(b, LastCell(a, previous), width, mode)
    ensures LastCell(a + b, previous) == LastCell(b, LastCell(a, previous))
  {
    hide Block;
    if a == [] {
      assert a + b == b;
    } else {
      var next := Some(a[0].key);
      assert (a + b)[1..] == a[1..] + b;
      LinesConcat(a[1..], b, next, width, mode);
      assert LastCell(a[1..], next) == LastCell(a, previous);
      Associative(Block(previous, a[0], width, mode), Lines(a[1..], next, width, mode), Lines(b, LastCell(a, previous), width, mode));
    }
  }

  /** How many blank lines stand between two cells: none where one of them is empty or the
      second goes on with the stream item of the first; else one, and two on the live
      screen between talk and a tool. */
  function BlankLines(first: GapKey, second: GapKey, mode: LineMode): nat {
    if first.isEmpty || second.isEmpty then 0
    else if second.isStreamContinuation && second.streamItemId == first.streamItemId then 0
    else match mode
      case Scrollback => 1
      case Live =>
        if (first.kind.Message? || first.kind.Reasoning? || first.kind.Exploration? || first.kind.Search?)
           && (second.kind.Command? || second.kind.Tool?)
        then 2 else 1
  }

  /** The lines around cell i of any list: what comes before it, the blank lines that
      stand between it and its neighbour, its own lines unless it is empty, and what
      comes after it. In front of the very first cell there is no blank line. */
  lemma StandsBetween(cells: seq<HistoryCell>, previous: Option<GapKey>, width: nat, mode: LineMode, i: nat)
    requires i < |cells|
    ensures var neighbour := if i > 0 then Some(cells[i - 1].key) else previous;
            var cell := cells[i];
            var blank := seq(if neighbour.Some? then BlankLines(neighbour.value, cell.key, mode) else 0, _ => "");
            var own := if cell.key.isEmpty then [] else match mode case Live => cell.live(width) case Scrollback => cell.scrollback(width);
            Lines(cells, previous, width, mode) ==
            Lines(cells[..i], previous, width, mode) + (blank + own + Lines(cells[i + 1..], Some(cell.key), width, mode))
  {
    hide Lines, Block;
    var cell := cells[i];
    var neighbour := LastCell(cells[..i], previous);
    assert cells == cells[..i] + ([cell] + cells[i + 1..]);
    LinesConcat(cells[..i], [cell] + cells[i + 1..], previous, width, mode);
    LinesConcat([cell], cells[i + 1..], neighbour, width, mode);
    OneCell(cell, neighbour, width, mode);
    BlockIs(neighbour, cell, width, mode);
  }

  lemma BlockIs(previous: Option<GapKey>, cell: HistoryCell, width: nat, mode: LineMode)
    ensures var blank := seq(if previous.Some? then BlankLines(previous.value, cell.key, mode) else 0, _ => "");
            var own := if cell.key.isEmpty then [] else match mode case Live => cell.live(width) case Scrollback => cell.scrollback(width);
            Block(previous, cell, width, mode) == blank + own
  {
    assert seq(0, _ => "") == [] && seq(1, _ => "") == [""] && seq(2, _ => "") == ["", ""];
  }

  /** Batches built one after the other, each from the last cell of the one before. */
  function Incremental(batches: seq<seq<HistoryCell>>, previous: Option<GapKey>, width: nat, mode: LineMode): seq<string> {
    if batches == [] then []
    else
      Lines(batches[0], previous, width, mode) + Incremental(batches[1..], LastCell(batches[0], previous), width, mode)
  }

  /** However the cells are split into batches, the scrollback is the full replay. */
  lemma {:induction false} IncrementalIsFull(batches: seq<seq<HistoryCell>>, previous: Option<GapKey>, width: nat, mode: LineMode)
    ensures Incremental(batches, previous, width, mode) == Lines(Flatten(batches), previous, width, mode)
  {
    hide Lines, LastCell;
    if batches == [] {
      LinesOfNothing(previous, width, mode);
    } else {
      IncrementalIsFull(batches[1..], LastCell(batches[0], previous), width, mode);
      LinesConcat(batches[0], Flatten(batches[1..]), previous, width, mode);
    }
  }

  lemma LinesOfNothing(previous: Option<GapKey>, width: nat, mode: LineMode)
    ensures Lines([], previous, width, mode) == []
  {
  }

  /** A line is blank exactly when it has nothing but white space in it. */
  lemma BlankIs(line: string)
    ensures IsBlank(line) <==> forall i :: 0 <= i < |line| ==> IsWhiteSpace(line[i] as int)
  {
    assert forall i :: 0 <= i < |line| ==> line[i] in line;
  }

  /** Trimming removes blank lines from the end and nothing else. */
  lemma {:induction false} TrimmedIsLongest(lines: seq<string>) returns (blank: seq<string>)
    ensures lines == Trimmed(lines) + blank && forall line :: line in blank ==> IsBlank(line)
    ensures Trimmed(lines) == [] || !IsBlank(Trimmed(lines)[|Trimmed(lines)| - 1])
  {
    hide IsBlank;
    blank := [];
    if lines != [] && IsBlank(lines[|lines| - 1]) {
      var rest := TrimmedIsLongest(lines[..|lines| - 1]);
      blank := rest + [lines[|lines| - 1]];
    }
  }

  lemma {:induction false} TrimmedConcat(a: seq<string>, b: seq<string>)
    ensures Trimmed(a + b) == if Trimmed(b) == [] then Trimmed(a) else a + Trimmed(b)
  {
    hide IsBlank;
    if b == [] {
      assert a + b == a;
    } else {
      assert (a + b)[..|a + b| - 1] == a + b[..|b| - 1];
      if IsBlank(b[|b| - 1]) {
        TrimmedConcat(a, b[..|b| - 1]);
      }
    }
  }

  /** Trimmed batches add up exactly when the second shows nothing, or the first had
      nothing to trim. */
  lemma TrimmedBatchesExact(a: seq<HistoryCell>, b: seq<HistoryCell>, previous: Option<GapKey>, width: nat, mode: LineMode)
    ensures var first := Lines(a, previous, width, mode);
            var second := Lines(b, LastCell(a, previous), width, mode);
            Trimmed(Lines(a + b, previous, width, mode)) == Trimmed(first) + Trimmed(second)
            <==> Trimmed(second) == [] || Trimmed(first) == first
  {
    hide Lines;
    var first, second := Lines(a, previous, width, mode), Lines(b, LastCell(a, previous), width, mode);
    LinesConcat(a, b, previous, width, mode);
    TrimmedConcat(first, second);
    var blank := TrimmedIsLongest(first);
    if Trimmed(second) == [] {
      assert Trimmed(first) + [] == Trimmed(first);
    } else if Trimmed(first) + Trimmed(second) == first + Trimmed(second) {
      assert |Trimmed(first)| == |first|;
    }
  }
}
