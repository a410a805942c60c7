/**
 The turn index: for one conversation, a table of turn ids and the offsets of the
 lines that start them. Queries follow the SQL: an upsert keyed by turn id, and the
 last rows below an offset in ascending order.
 */
module TurnIndex {
  import opened Wrappers
  import opened Sequences
  import opened RolloutLog
  import opened TurnPaging

  datatype Row = Row(turnId: string, startOffset: nat)

  type Table = seq<Row>

  // -------------------------------------------------------------------- queries

  /** INSERT ... ON CONFLICT DO UPDATE. */
  function Upsert(table: Table, row: Row): Table {
    if table == [] then [row]
    else if table[0].turnId == row.turnId then [row] + table[1..]
    else [table[0]] + Upsert(table[1..], row)
  }

  function UpsertAll(table: Table, rows: seq<Row>): Table
    decreases |rows|
  {
    if rows == [] then table else UpsertAll(Upsert(table, rows[0]), rows[1..])
  }

  function TurnStartOffset(table: Table, turnId: string): (r: Option<nat>)
    ensures r.Some? ==> Row(turnId, r.value) in table
    ensures r.None? ==> forall i :: 0 <= i < |table| ==> table[i].turnId != turnId
  {
    if table == [] then None
    else if table[0].turnId == turnId then Some(table[0].startOffset)
    else
      TurnStartOffset(table[1..], turnId)
  }

  predicate IsBelow(row: Row, before: Option<nat>) {
    before.None? || row.startOffset < before.value
  }

  function Below(table: Table, before: Option<nat>): Table {
    if table == [] then []
    else (if IsBelow(table[0], before) then [table[0]] else []) + Below(table[1..], before)
  }

  /** ORDER BY start_offset. */
  function Sorted(table: Table): Table {
    if table == [] then [] else InsertSorted(table[0], Sorted(table[1..]))
  }

  function InsertSorted(row: Row, table: Table): Table {
    if table == [] || row.startOffset <= table[0].startOffset then [row] + table
    else [table[0]] + InsertSorted(row, table[1..])
  }

  function LastRows(table: Table, n: nat): Table {
    if |table| <= n then table else table[|table| - n..]
  }

  /** ORDER BY start_offset DESC LIMIT max(limit, 1), then reversed. */
  function PageBeforeOffset(table: Table, before: Option<nat>, limit: nat): Table {
    LastRows(Sorted(Below(table, before)), Max1(limit))
  }

  /** An upsert sets the offset of its own turn, known or not, and no other. */
  lemma {:induction false} UpsertSetsOne(table: Table, row: Row, id: string)
    ensures TurnStartOffset(Upsert(table, row), id) == if id == row.turnId then Some(row.startOffset) else TurnStartOffset(table, id)
  {
    if table != [] {
      UpsertSetsOne(table[1..], row, id);
      assert table[0].turnId != row.turnId ==> Upsert(table, row)[1..] == Upsert(table[1..], row);
      assert table[0].turnId == row.turnId ==> Upsert(table, row)[1..] == table[1..];
    }
  }

  ghost predicate Ascends(table: Table) {
    forall i :: 0 < i < |table| ==> table[i - 1].startOffset <= table[i].startOffset
  }

  lemma {:induction false} InsertAscends(row: Row, table: Table)
    requires Ascends(table)
    ensures Ascends(InsertSorted(row, table))
    ensures InsertSorted(row, table) != []
    ensures InsertSorted(row, table)[0] == if table == [] || row.startOffset <= table[0].startOffset then row else table[0]
  {
    if table != [] && row.startOffset > table[0].startOffset {
      InsertAscends(row, table[1..]);
    }
  }

  lemma {:induction false} InsertHolds(row: Row, table: Table)
    ensures multiset(InsertSorted(row, table)) == multiset{row} + multiset(table)
  {
    if table != [] && row.startOffset > table[0].startOffset {
      InsertHolds(row, table[1..]);
      assert table == [table[0]] + table[1..];
    }
  }

  /** The rows of the query are all rows below the offset, each as often as in the table,
      in ascending order; the page takes the last of them. */
  lemma {:induction false} SelectedRows(table: Table, before: Option<nat>, row: Row)
    ensures Ascends(Sorted(Below(table, before)))
    ensures multiset(Sorted(Below(table, before)))[row] == if IsBelow(row, before) then multiset(table)[row] else 0
  {
    hide Ascends, IsBelow, InsertSorted;
    if table != [] {
      var first, rest := table[0], Below(table[1..], before);
      SelectedRows(table[1..], before, row);
      assert table == [first] + table[1..];
      if IsBelow(first, before) {
        assert Below(table, before) == [first] + rest && ([first] + rest)[1..] == rest;
        InsertAscends(first, Sorted(rest));
        InsertHolds(first, Sorted(rest));
      } else {
        assert Below(table, before) == rest;
      }
    } else {
      assert Ascends([]) by { NoneAscends(); }
    }
  }

  lemma NoneAscends()
    ensures Ascends([])
  {
  }

  // ------------------------------------------------------- tables in file order

  ghost predicate Ordered(table: Table) {
    forall i, j :: 0 <= i < j < |table| ==> table[i].startOffset < table[j].startOffset
  }

  ghost predicate DistinctIds(table: Table) {
    forall i, j :: 0 <= i < j < |table| ==> table[i].turnId != table[j].turnId
  }

  lemma {:induction false} UpsertNew(table: Table, row: Row)
    requires forall i :: 0 <= i < |table| ==> table[i].turnId != row.turnId
    ensures Upsert(table, row) == table + [row]
  {
    if table != [] {
      UpsertNew(table[1..], row);
      assert table == [table[0]] + table[1..];
      Associative([table[0]], table[1..], [row]);
    }
  }

  /** Rows for turns the table does not know are appended. */
  lemma {:induction false} UpsertAllNew(table: Table, rows: seq<Row>)
    requires DistinctIds(table + rows)
    ensures UpsertAll(table, rows) == table + rows
    decreases |rows|
  {
    if rows == [] {
      assert table + rows == table;
    } else {
      var all := table + rows;
      forall i | 0 <= i < |table| ensures table[i].turnId != rows[0].turnId {
        assert all[i] == table[i] && all[|table|] == rows[0];
      }
      UpsertNew(table, rows[0]);
      assert rows == [rows[0]] + rows[1..];
      Associative(table, [rows[0]], rows[1..]);
      UpsertAllNew(table + [rows[0]], rows[1..]);
    }
  }

  lemma {:induction false} SortedOrdered(table: Table)
    requires Ordered(table)
    ensures Sorted(table) == table
  {
    if table != [] {
      SortedOrdered(table[1..]);
      assert table == [table[0]] + table[1..];
    }
  }

  /** Below an offset that m rows lie under are exactly the first m rows. */
  lemma {:induction false} BelowOrdered(table: Table, before: Option<nat>, m: nat)
    requires m <= |table|
    requires forall i :: 0 <= i < |table| ==> (i < m <==> IsBelow(table[i], before))
    ensures Below(table, before) == table[..m]
    decreases |table|
  {
    if table != [] {
      var tail := table[1..];
      if m == 0 {
        BelowOrdered(tail, before, 0);
        assert table[..0] == [] && tail[..0] == [];
      } else {
        BelowOrdered(tail, before, m - 1);
        assert table[..m] == [table[0]] + tail[..m - 1];
      }
    }
  }

  lemma PageOrdered(table: Table, before: Option<nat>, m: nat, limit: nat)
    requires Ordered(table) && m <= |table|
    requires forall i :: 0 <= i < |table| ==> (i < m <==> IsBelow(table[i], before))
    ensures PageBeforeOffset(table, before, limit) == LastRows(table[..m], Max1(limit))
  {
    BelowOrdered(table, before, m);
    SortedOrdered(table[..m]);
  }

  lemma LookupDistinct(table: Table, i: nat)
    requires DistinctIds(table) && i < |table|
    ensures TurnStartOffset(table, table[i].turnId) == Some(table[i].startOffset)
  {
    var r := TurnStartOffset(table, table[i].turnId);
    if r.Some? {
      var j :| 0 <= j < |table| && table[j] == Row(table[i].turnId, r.value);
      assert !(j < i) && !(i < j);
    }
  }

  // ------------------------------------------------------------- rows of a log

  /** The rows a log's lines give rise to (`filter_map` over the parsed lines). */
  function TurnRows(lines: seq<ParsedLine>): Table {
    if lines == [] then []
    else
      var n := |lines| - 1;
      TurnRows(lines[..n]) +
      match TurnStartId(lines[n].item)
      case None => []
      case Some(id) => [Row(id, lines[n].startOffset)]
  }

  lemma {:induction false} TurnRowsConcat(a: seq<ParsedLine>, b: seq<ParsedLine>)
    ensures TurnRows(a + b) == TurnRows(a) + TurnRows(b)
    decreases |b|
  {
    if b == [] {
      assert a + b == a;
      assert TurnRows(a) + [] == TurnRows(a);
    } else {
      var n := |b| - 1;
      assert (a + b)[..|a| + n] == a + b[..n];
      assert (a + b)[|a| + n] == b[n];
      TurnRowsConcat(a, b[..n]);
      Associative(TurnRows(a), TurnRows(b[..n]),
        match TurnStartId(b[n].item) case None => [] case Some(id) => [Row(id, b[n].startOffset)]);
    }
  }

  /** Row i belongs to the line at the i-th turn start. */
  lemma {:induction false} TurnRowsAre(lines: seq<ParsedLine>)
    ensures var starts := Starts(Items(lines));
            && |TurnRows(lines)| == |starts|
            && forall i :: 0 <= i < |starts| ==>
                 TurnRows(lines)[i] == Row(TurnStartId(lines[starts[i]].item).value, lines[starts[i]].startOffset)
    decreases |lines|
  {
    if lines != [] {
      var n := |lines| - 1;
      TurnRowsAre(lines[..n]);
      assert Items(lines)[..n] == Items(lines[..n]);
    }
  }

  lemma RowsOrdered(lines: seq<ParsedLine>)
    requires forall j, k :: 0 <= j < k < |lines| ==> lines[j].startOffset < lines[k].startOffset
    ensures Ordered(TurnRows(lines))
  {
    TurnRowsAre(lines);
  }

  lemma RowsDistinct(lines: seq<ParsedLine>)
    requires DistinctTurns(Items(lines))
    ensures DistinctIds(TurnRows(lines))
  {
    TurnRowsAre(lines);
    var starts := Starts(Items(lines));
    forall i, j | 0 <= i < j < |starts| ensures TurnRows(lines)[i].turnId != TurnRows(lines)[j].turnId {
      assert starts[i] < starts[j];
      assert Items(lines)[starts[i]] == lines[starts[i]].item && Items(lines)[starts[j]] == lines[starts[j]].item;
    }
  }
}
