/**
 One conversation of the store: its rollout file and its rows of the turn index.
 Appends maintain the index; page loads use it, rebuild it when it gives nothing,
 and fall back to the scan.
 */
module ConversationStore {
  import opened Wrappers
  import opened Sequences
  import opened Utf8
  import opened RolloutLog
  import opened RolloutRecovery
  import opened TurnPaging
  import opened TurnIndex

  datatype StoreError = NotUtf8 | Malformed(lineNo: nat)

  /** A log every reader accepts: text whose terminated lines parse, with no turn id
      used twice. */
  ghost predicate Readable(codec: Codec, bytes: seq<byte>) {
    Valid(bytes) && ParseText(codec, bytes).Ok? && DistinctTurns(Items(ParseText(codec, bytes).value))
  }

  ghost function ExactIndex(codec: Codec, bytes: seq<byte>): Table
    requires Readable(codec, bytes)
  {
    TurnRows(ParseText(codec, bytes).value)
  }

  /** The page that linear scanning yields, the reference for every other path. */
  ghost function ReferencePage(codec: Codec, bytes: seq<byte>, before: Option<string>, limit: nat): Page
    requires Readable(codec, bytes)
  {
    ScanPage(Items(ParseText(codec, bytes).value), before, limit)
  }

  // --------------------------------------------------- the index finds the page

  function CursorOffset(table: Table, before: Option<string>): Option<nat> {
    if before.None? then None else TurnStartOffset(table, before.value)
  }

  lemma LinesAscend(codec: Codec, bytes: seq<byte>)
    requires ParseText(codec, bytes).Ok?
    ensures Ascending(ParseText(codec, bytes).value, 0, |bytes|)
    ensures forall k :: 0 <= k < |ParseText(codec, bytes).value| ==> AtLineStart(bytes, ParseText(codec, bytes).value[k].startOffset)
  {
    hide ParseFrom;
    OffsetsAscend(codec, bytes, 0, 1);
    var lines := ParseText(codec, bytes).value;
    forall k | 0 <= k < |lines| ensures AtLineStart(bytes, lines[k].startOffset) {
      assert lines[k] in lines && lines[k] == ParsedLine(lines[k].item, 0 + lines[k].startOffset);
      RecordedLines(codec, bytes, 0, 1, lines[k].startOffset, lines[k].item);
    }
  }

  /** The offset looked up for the cursor is that of the item the scan stops at. */
  lemma CursorLookup(lines: seq<ParsedLine>, before: Option<string>)
    requires DistinctTurns(Items(lines))
    ensures var q := CursorPos(Items(lines), before);
            CursorOffset(TurnRows(lines), before) == if q < |lines| then Some(lines[q].startOffset) else None
  {
    hide TurnRows, Starts, CursorPos;
    var items := Items(lines);
    var table := TurnRows(lines);
    var starts := Starts(items);
    var q := CursorPos(items, before);
    TurnRowsAre(lines);
    RowsDistinct(lines);
    if q < |lines| {
      StartsComplete(items, q);
      var i :| 0 <= i < |starts| && starts[i] == q;
      LookupDistinct(table, i);
    } else if before.Some? {
      forall i | 0 <= i < |table| ensures table[i].turnId != before.value {
        assert !StartsTurn(items[starts[i]], before);
      }
    }
  }

  /** The rows below the cursor belong to the turns the scan would have seen. */
  lemma RowsBelowCursor(lines: seq<ParsedLine>, before: Option<string>, limit: nat)
    requires DistinctTurns(Items(lines)) && Ascending(lines, 0, if lines == [] then 0 else lines[|lines| - 1].startOffset + 1)
    ensures var q := CursorPos(Items(lines), before);
            var n := |Starts(Items(lines)[..q])|;
            var table := TurnRows(lines);
            && n <= |table|
            && PageBeforeOffset(table, CursorOffset(table, before), limit) == LastRows(table[..n], Max1(limit))
  {
    hide TurnRows, Starts, CursorPos, CursorOffset;
    var items := Items(lines);
    var q := CursorPos(items, before);
    var table := TurnRows(lines);
    var starts := Starts(items);
    var n := |Starts(items[..q])|;
    TurnRowsAre(lines);
    RowsOrdered(lines);
    CursorLookup(lines, before);
    StartsOfPrefix(items, q);
    var offset := CursorOffset(table, before);
    forall i | 0 <= i < |table| ensures i < n <==> IsBelow(table[i], offset) {
      if i < n {
        assert Starts(items[..q])[i] == starts[i];
      }
    }
    PageOrdered(table, offset, n, limit);
  }

  /** These bytes are text, and its records are items. */
  ghost predicate SliceReads(codec: Codec, bytes: seq<byte>, start: nat, end: nat, items: seq<RolloutItem>) {
    && start < end <= |bytes|
    && Valid(bytes[start..end])
    && ParseText(codec, bytes[start..end]).Ok?
    && Items(ParseText(codec, bytes[start..end]).value) == items
  }

  /** The bytes from one line to the next page's end read as the lines between. */
  lemma SliceReadsLines(codec: Codec, bytes: seq<byte>, s: nat, q: nat)
    requires Readable(codec, bytes)
    requires var lines := ParseText(codec, bytes).value; s < q <= |lines|
    ensures var lines := ParseText(codec, bytes).value;
            var start, end := lines[s].startOffset, if q < |lines| then lines[q].startOffset else |bytes|;
            SliceReads(codec, bytes, start, end, Items(lines)[s..q])
  {
    hide ParseFrom, Valid;
    LinesAscend(codec, bytes);
    var lines := ParseText(codec, bytes).value;
    var start, end := lines[s].startOffset, if q < |lines| then lines[q].startOffset else |bytes|;
    SliceIsValid(bytes, start, end);
    var lo, hi := SliceReadsRange(codec, bytes, start, end);
    assert lo <= s < hi;
    var atLo := if lo < |lines| then lines[lo].startOffset else start;
    var atHi := if hi < |lines| then lines[hi].startOffset else end;
    assert lo == s && hi == q;
    assert Items(lines[s..q]) == Items(lines)[s..q];
  }

  /** The page's first row, once the row that only shows there is more is removed. */
  lemma FirstRowOfPage(table: Table, n: nat, k: nat, rows: Table)
    requires n <= |table| && k > 0 && rows == LastRows(table[..n], k + 1)
    ensures |rows| > k <==> n > k
    ensures rows == [] <==> n == 0
    ensures n > 0 ==> rows[if |rows| > k then 1 else 0] == table[if n > k then n - k else 0]
  {
  }

  /** With an exact index, the slice that the rows select reads as the scan's page. */
  lemma IndexedPage(codec: Codec, bytes: seq<byte>, before: Option<string>, limit: nat)
    requires Readable(codec, bytes)
    requires PageBeforeOffset(ExactIndex(codec, bytes), CursorOffset(ExactIndex(codec, bytes), before), Max1(limit) + 1) != []
    ensures var table, k := ExactIndex(codec, bytes), Max1(limit);
            var cursor := CursorOffset(table, before);
            var rows := PageBeforeOffset(table, cursor, k + 1);
            var page := ReferencePage(codec, bytes, before, limit);
            && page.hasMore == (|rows| > k)
            && SliceReads(codec, bytes,
                          rows[if |rows| > k then 1 else 0].startOffset,
                          if cursor.Some? then cursor.value else |bytes|,
                          page.items)
  {
    hide ParseFrom, SliceReads, TurnRows, ScanPage, CursorPos, CursorOffset, PageBeforeOffset;
    var lines := ParseText(codec, bytes).value;
    LinesAscend(codec, bytes);
    CursorLookup(lines, before);
    var s, q := PageSpan(lines, before, limit);
    SliceReadsLines(codec, bytes, s, q);
  }

  /** The scan's page is a span of lines, and the selected rows start with its first. */
  lemma PageSpan(lines: seq<ParsedLine>, before: Option<string>, limit: nat) returns (s: nat, q: nat)
    requires DistinctTurns(Items(lines)) && Ascending(lines, 0, if lines == [] then 0 else lines[|lines| - 1].startOffset + 1)
    requires PageBeforeOffset(TurnRows(lines), CursorOffset(TurnRows(lines), before), Max1(limit) + 1) != []
    ensures q == CursorPos(Items(lines), before) && s < q <= |lines|
    ensures var page, k := ScanPage(Items(lines), before, limit), Max1(limit);
            var rows := PageBeforeOffset(TurnRows(lines), CursorOffset(TurnRows(lines), before), k + 1);
            && page == Page(Items(lines)[s..q], |rows| > k)
            && rows[if |rows| > k then 1 else 0].startOffset == lines[s].startOffset
  {
    hide TurnRows, Starts, CursorPos, CursorOffset, PageBeforeOffset, TurnStartId;
    var items, table, k := Items(lines), TurnRows(lines), Max1(limit);
    q := CursorPos(items, before);
    var starts := Starts(items[..q]);
    var n := |starts|;
    RowsBelowCursor(lines, before, k + 1);
    FirstRowOfPage(table, n, k, PageBeforeOffset(table, CursorOffset(table, before), k + 1));
    TurnRowsAre(lines);
    StartsOfPrefix(items, q);
    hide LastRows, Max1;
    var first := if n > k then n - k else 0;
    assert starts[first] == Starts(items)[first];
    s := starts[first];
  }

  lemma EmptyPage(before: Option<nat>, limit: nat)
    ensures PageBeforeOffset([], before, limit) == []
  {
  }

  // ---------------------------------------------------------------------- appends

  datatype StoreState = StoreState(rollout: Option<seq<byte>>, turnIndex: Table)

  function BytesOf(st: StoreState): seq<byte> {
    if st.rollout.Some? then st.rollout.value else []
  }

  /** What one append leaves behind; nothing changes when nothing is persisted.
      PersistedAre says which items are kept. */
  function Appended(codec: Codec, st: StoreState, items: seq<RolloutItem>): StoreState {
    var kept := PersistedItems(items);
    if kept == [] then st
    else
      var bytes := BytesOf(st);
      StoreState(Some(bytes + Render(codec, kept)),
                 UpsertAll(st.turnIndex, TurnRows(WrittenLines(codec, kept, |bytes|))))
  }

  /** The log holds exactly these records, and the index is the one a rebuild of the
      log would give. */
  ghost predicate Holds(codec: Codec, st: StoreState, items: seq<RolloutItem>) {
    && BytesOf(st) == Render(codec, items)
    && st.turnIndex == TurnRows(WrittenLines(codec, items, 0))
    && (st.rollout.None? ==> items == [])
  }

  lemma {:induction false} RenderConcat(codec: Codec, a: seq<RolloutItem>, b: seq<RolloutItem>, offset: nat)
    ensures Render(codec, a + b) == Render(codec, a) + Render(codec, b)
    ensures WrittenLines(codec, a + b, offset) == WrittenLines(codec, a, offset) + WrittenLines(codec, b, offset + |Render(codec, a)|)
  {
    if a == [] {
      assert a + b == b;
    } else {
      assert (a + b)[1..] == a[1..] + b;
      var line := Line(codec, a[0]);
      RenderConcat(codec, a[1..], b, offset + |line|);
      Associative(line, Render(codec, a[1..]), Render(codec, b));
      Associative([ParsedLine(a[0], offset)], WrittenLines(codec, a[1..], offset + |line|), WrittenLines(codec, b, offset + |Render(codec, a)|));
    }
  }

  /** Incremental upkeep of the index is as good as a rebuild. */
  lemma AppendKeepsIndexExact(codec: Codec, st: StoreState, past: seq<RolloutItem>, items: seq<RolloutItem>)
    requires Holds(codec, st, past) && DistinctTurns(past + PersistedItems(items))
    ensures Holds(codec, Appended(codec, st, items), past + PersistedItems(items))
  {
    hide TurnRows, Render, WrittenLines;
    var kept := PersistedItems(items);
    if kept == [] {
      assert past + kept == past;
    } else {
      RenderConcat(codec, past, kept, 0);
      var a, b := WrittenLines(codec, past, 0), WrittenLines(codec, kept, |BytesOf(st)|);
      TurnRowsConcat(a, b);
      WrittenItems(codec, past + kept, 0);
      RowsDistinct(a + b);
      UpsertAllNew(st.turnIndex, TurnRows(b));
    }
  }

  /** One more record written: its bytes, its line, its row. */
  lemma WriteStep(codec: Codec, items: seq<RolloutItem>, i: nat, offset: nat)
    requires i < |items|
    ensures var before := Render(codec, items[..i]);
            && Render(codec, items[..i + 1]) == before + Line(codec, items[i])
            && TurnRows(WrittenLines(codec, items[..i + 1], offset))
            == TurnRows(WrittenLines(codec, items[..i], offset)) +
               match TurnStartId(items[i]) case None => [] case Some(id) => [Row(id, offset + |before|)]
  {
    hide Line, TurnRows;
    var one := [items[i]];
    assert items[..i + 1] == items[..i] + one;
    RenderConcat(codec, items[..i], one, offset);
    assert one[1..] == [];
    assert Line(codec, items[i]) + [] == Line(codec, items[i]);
    var at := offset + |Render(codec, items[..i])|;
    assert [ParsedLine(items[i], at)] + [] == [ParsedLine(items[i], at)];
    TurnRowsConcat(WrittenLines(codec, items[..i], offset), [ParsedLine(items[i], at)]);
    OneTurnRow(ParsedLine(items[i], at));
  }

  lemma LineIs(codec: Codec, item: RolloutItem)
    ensures Line(codec, item) == codec.encode(item) + [NEWLINE] == codec.encode(item) + [10]
  {
  }

  lemma NothingWritten(codec: Codec, offset: nat)
    ensures Render(codec, []) == [] && TurnRows(WrittenLines(codec, [], offset)) == []
  {
  }

  lemma OneTurnRow(line: ParsedLine)
    ensures TurnRows([line]) == match TurnStartId(line.item) case None => [] case Some(id) => [Row(id, line.startOffset)]
  {
    assert [line][..0] == [];
  }

  function AppendAll(codec: Codec, st: StoreState, batches: seq<seq<RolloutItem>>): StoreState
    decreases |batches|
  {
    if batches == [] then st else AppendAll(codec, Appended(codec, st, batches[0]), batches[1..])
  }

  function AllPersisted(batches: seq<seq<RolloutItem>>): seq<RolloutItem> {
    if batches == [] then [] else PersistedItems(batches[0]) + AllPersisted(batches[1..])
  }

  /** What was persisted of the batches is what is persisted of all items in order. */
  lemma {:induction false} AllPersistedIs(batches: seq<seq<RolloutItem>>)
    ensures AllPersisted(batches) == PersistedItems(Flatten(batches))
  {
    hide PersistedItems;
    if batches != [] {
      AllPersistedIs(batches[1..]);
      PersistedConcat(batches[0], Flatten(batches[1..]));
    } else {
      assert PersistedItems([]) == [] by { NothingPersisted(); }
    }
  }

  lemma NothingPersisted()
    ensures PersistedItems([]) == []
  {
  }

  lemma {:induction false} AppendAllHolds(codec: Codec, st: StoreState, past: seq<RolloutItem>, batches: seq<seq<RolloutItem>>)
    requires Holds(codec, st, past) && DistinctTurns(past + AllPersisted(batches))
    ensures Holds(codec, AppendAll(codec, st, batches), past + AllPersisted(batches))
    decreases |batches|
  {
    hide Holds, Appended;
    if batches == [] {
      assert past + [] == past;
    } else {
      var kept, rest := PersistedItems(batches[0]), AllPersisted(batches[1..]);
      Associative(past, kept, rest);
      var all := past + kept + rest;
      assert DistinctTurns(past + kept) by {
        assert forall i :: 0 <= i < |past + kept| ==> all[i] == (past + kept)[i];
      }
      AppendKeepsIndexExact(codec, st, past, batches[0]);
      AppendAllHolds(codec, Appended(codec, st, batches[0]), past + kept, batches[1..]);
    }
  }

  /** Whatever was appended, in whatever batches: the log reads back as the items given,
      in order, without the passing events, and the index kept while writing is the one
      rebuilt from the text. */
  lemma RunsKeepIndexExact(codec: Codec, batches: seq<seq<RolloutItem>>) returns (at: seq<nat>)
    requires codec.Lawful() && DistinctTurns(AllPersisted(batches))
    ensures AreLasting(Flatten(batches), at)
    ensures var st := AppendAll(codec, StoreState(None, []), batches);
            && Readable(codec, BytesOf(st))
            && Items(ParseText(codec, BytesOf(st)).value) == AllPersisted(batches)
            && |AllPersisted(batches)| == |at|
            && (forall k :: 0 <= k < |at| ==> AllPersisted(batches)[k] == Flatten(batches)[at[k]])
            && st.turnIndex == ExactIndex(codec, BytesOf(st))
  {
    hide ParseFrom, Valid, PersistedItems, AllPersisted, AppendAll, AreLasting, Flatten;
    AllPersistedIs(batches);
    at := PersistedAre(Flatten(batches));
    var items := AllPersisted(batches);
    var st := StoreState(None, []);
    assert Holds(codec, st, []);
    assert [] + items == items;
    AppendAllHolds(codec, st, [], batches);
    RenderIsValid(codec, items);
    ParseWhole(codec, items);
    WrittenItems(codec, items, 0);
  }

  // -------------------------------------------------------------------- the store

  class ConversationStore {
    const codec: Codec
    var rollout: Option<seq<byte>>
    var turnIndex: Table

    ghost function State(): StoreState
      reads this
    {
      StoreState(rollout, turnIndex)
    }

    /** Pages are promised for a readable log whose index is exact or still empty. */
    ghost predicate Pageable()
      reads this
    {
      rollout.Some? ==>
        && Readable(codec, rollout.value)
        && (turnIndex == [] || turnIndex == ExactIndex(codec, rollout.value))
    }

    constructor (codec: Codec)
      ensures this.codec == codec && State() == StoreState(None, [])
    {
      this.codec := codec;
      rollout := None;
      turnIndex := [];
    }

    /** `append_rollout_items`. */
    method AppendRolloutItems(items: seq<RolloutItem>)
      modifies this
      ensures State() == Appended(codec, old(State()), items)
    {
      hide Render, WrittenLines, TurnRows, Line;
      var kept := PersistedItems(items);
      if kept == [] {
        return;
      }
      var file := if rollout.Some? then rollout.value else [];
      ghost var start := file;
      var nextOffset := |file|;
      var rows: seq<Row> := [];
      NothingWritten(codec, |start|);
      assert kept[..0] == [] && start + [] == start;
      for i := 0 to |kept|
        invariant file == start + Render(codec, kept[..i])
        invariant nextOffset == |file|
        invariant rows == TurnRows(WrittenLines(codec, kept[..i], |start|))
        modifies {}
      {
        WriteStep(codec, kept, i, |start|);
        var lineStartOffset := nextOffset;
        var line := codec.encode(kept[i]);
        assert line + [NEWLINE] == Line(codec, kept[i]) by { LineIs(codec, kept[i]); }
        nextOffset := nextOffset + |line| + 1;
        if TurnStartId(kept[i]).Some? {
          rows := rows + [Row(TurnStartId(kept[i]).value, lineStartOffset)];
        }
        Associative(start, Render(codec, kept[..i]), Line(codec, kept[i]));
        Associative(file, line, [NEWLINE]);
        file := file + line;
        file := file + [NEWLINE];
      }
      assert kept[..|kept|] == kept;
      rollout := Some(file);
      turnIndex := UpsertAll(turnIndex, rows);
    }

    /** `load_rollout_items_page_from_index`; no page means no row lies below the cursor. */
    method LoadPageFromIndex(before: Option<string>, limit: nat) returns (r: Result<Option<Page>, StoreError>)
      ensures rollout.None? ==> r == Ok(Some(Page([], false)))
      ensures rollout.Some? && Pageable() ==>
                r == if PageBeforeOffset(turnIndex, CursorOffset(turnIndex, before), Max1(limit) + 1) == [] then Ok(None)
                     else Ok(Some(ReferencePage(codec, rollout.value, before, limit)))
    {
      if rollout.None? {
        return Ok(Some(Page([], false)));
      }
      var file := rollout.value;
      var beforeOffset := CursorOffset(turnIndex, before);
      var rows := PageBeforeOffset(turnIndex, beforeOffset, Max1(limit) + 1);
      if rows == [] {
        return Ok(None);
      }
      if Pageable() {
        assert turnIndex != [] by { EmptyPage(beforeOffset, Max1(limit) + 1); }
        IndexedPage(codec, file, before, limit);
      }
      var pageLimit := Max1(limit);
      var hasMore := |rows| > pageLimit;
      if hasMore {
        rows := rows[1..];
      }
      var startOffset := Least(rows[0].startOffset, |file|);
      var endOffset := Least(if beforeOffset.Some? then beforeOffset.value else |file|, |file|);
      if startOffset >= endOffset {
        return Ok(None);
      }
      var text := file[startOffset..endOffset];
      FromUtf8Fine(text);
      if FromUtf8(text).Error? {
        return Err(NotUtf8);
      }
      var items := ParseItems(codec, text);
      match items
      case Err(e) => return Err(Malformed(e.lineNo));
      case Ok(items) => return Ok(Some(Page(items, hasMore)));
    }

    /** `rebuild_turn_index_from_path`. */
    method RebuildTurnIndex() returns (r: Result<(), StoreError>)
      modifies `turnIndex
      ensures rollout.None? ==> r.Ok? && turnIndex == []
      ensures rollout.Some? && Readable(codec, rollout.value) ==> r.Ok? && turnIndex == ExactIndex(codec, rollout.value)
      ensures rollout.Some? && !Valid(rollout.value) ==> r == Err(NotUtf8)
      ensures rollout.Some? && Valid(rollout.value) ==>
                match ParseText(codec, rollout.value)
                case Err(e) => r == Err(Malformed(e.lineNo))
                case Ok(lines) => r.Ok? && turnIndex == UpsertAll([], TurnRows(lines))
      ensures r.Err? ==> turnIndex == old(turnIndex)
    {
      if rollout.None? {
        turnIndex := [];
        return Ok(());
      }
      FromUtf8Fine(rollout.value);
      if FromUtf8(rollout.value).Error? {
        return Err(NotUtf8);
      }
      var lines := ParseLinesWithOffsets(codec, rollout.value);
      match lines
      case Err(e) => return Err(Malformed(e.lineNo));
      case Ok(lines) =>
        if DistinctTurns(Items(lines)) {
          RowsDistinct(lines);
          UpsertAllNew([], TurnRows(lines));
          assert [] + TurnRows(lines) == TurnRows(lines);
        }
        turnIndex := UpsertAll([], TurnRows(lines));
        return Ok(());
    }

    /** `load_rollout_items_page_by_scanning`. */
    method LoadPageByScanning(before: Option<string>, limit: nat) returns (r: Result<Page, StoreError>)
      ensures rollout.None? ==> r == Ok(Page([], false))
      ensures rollout.Some? && Readable(codec, rollout.value) ==> r == Ok(ReferencePage(codec, rollout.value, before, limit))
      ensures rollout.Some? && !Valid(rollout.value) ==> r == Err(NotUtf8)
      ensures rollout.Some? && Valid(rollout.value) && ParseText(codec, rollout.value).Err? ==>
                r == Err(Malformed(ParseText(codec, rollout.value).error.lineNo))
    {
      if rollout.None? {
        return Ok(Page([], false));
      }
      FromUtf8Fine(rollout.value);
      if FromUtf8(rollout.value).Error? {
        return Err(NotUtf8);
      }
      var lines := ParseLinesWithOffsets(codec, rollout.value);
      match lines
      case Err(e) => return Err(Malformed(e.lineNo));
      case Ok(lines) =>
        var page := ScanTurns(Items(lines), before, limit);
        return Ok(page);
    }

    /** `load_rollout_items_page`: index, rebuild, index again, scan. Whichever path
        answers, the page is the scan's. */
    method LoadRolloutItemsPage(before: Option<string>, limit: nat) returns (r: Result<Page, StoreError>)
      modifies `turnIndex
      ensures old(Pageable()) ==> Pageable()
      ensures rollout.None? ==> r == Ok(Page([], false))
      ensures rollout.Some? && old(Pageable()) ==> r == Ok(ReferencePage(codec, rollout.value, before, limit))
    {
      var page := LoadPageFromIndex(before, limit);
      if page.Err? {
        return Err(page.error);
      }
      if page.value.Some? {
        return Ok(page.value.value);
      }
      var rebuilt := RebuildTurnIndex();
      if rebuilt.Err? {
        return Err(rebuilt.error);
      }
      page := LoadPageFromIndex(before, limit);
      if page.Err? {
        return Err(page.error);
      }
      if page.value.Some? {
        return Ok(page.value.value);
      }
      r := LoadPageByScanning(before, limit);
    }
  }

  // ---------------------------------------------------------------- walking the pages

  /** A client that asks one store for page after page, from the newest back: the first
      page may find the index empty and later ones use it, and the pages are those of
      the walk by scanning. */
  method WalkPages(store: ConversationStore, before: Option<string>, limit: nat) returns (pages: seq<Page>)
    requires store.rollout.Some? && store.Pageable()
    modifies store`turnIndex
    ensures store.Pageable()
    ensures var items := Items(ParseText(store.codec, store.rollout.value).value);
            && pages == Walk(items, before, limit)
            && CoversLog(items, before, limit, pages)
  {
    hide ScanPage, CursorPos, CoversLog;
    ghost var items := Items(ParseText(store.codec, store.rollout.value).value);
    var cursor, more := before, true;
    pages := [];
    assert [] + Walk(items, before, limit) == Walk(items, before, limit);
    while more
      invariant store.Pageable()
      invariant if more then pages + Walk(items, cursor, limit) == Walk(items, before, limit) else pages == Walk(items, before, limit)
      decreases more, CursorPos(items, cursor)
    {
      var r := store.LoadRolloutItemsPage(cursor, limit);
      var page := r.value;
      ghost var done := pages;
      pages := pages + [page];
      more := page.hasMore;
      if more {
        StepsBack(items, cursor, limit);
        Associative(done, [page], Walk(items, NextCursor(page), limit));
        cursor := NextCursor(page);
      }
    }
    WalkCoversLog(items, before, limit);
  }

  lemma StepsBack(items: seq<RolloutItem>, before: Option<string>, limit: nat)
    requires DistinctTurns(items) && ScanPage(items, before, limit).hasMore
    ensures CursorPos(items, NextCursor(ScanPage(items, before, limit))) < CursorPos(items, before)
    ensures Walk(items, before, limit) ==
            [ScanPage(items, before, limit)] + Walk(items, NextCursor(ScanPage(items, before, limit)), limit)
  {
    CursorLeadsBack(items, before, limit);
  }
}
