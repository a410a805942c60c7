/**
 Pages of turns by one linear scan with a bounded window, and the walk a reader
 makes from the newest page to the oldest.
 */
module TurnPaging {
  import opened Wrappers
  import opened Sequences
  import opened RolloutLog

  datatype Page = Page(items: seq<RolloutItem>, hasMore: bool)

  /** A page holds at least one turn. */
  function Max1(limit: nat): (k: nat)
    ensures k > 0 && k == if limit == 0 then 1 else limit
  {
    Most(limit, 1)
  }

  // --------------------------------------------------------- where turns start

  /** Positions of the items that start a turn, in order. */
  function Starts(items: seq<RolloutItem>): (starts: seq<nat>)
    ensures forall k :: 0 <= k < |starts| ==> starts[k] < |items| && TurnStartId(items[starts[k]]).Some?
    ensures forall j, k :: 0 <= j < k < |starts| ==> starts[j] < starts[k]
  {
    if items == [] then []
    else
      var n := |items| - 1;
      Starts(items[..n]) + (if TurnStartId(items[n]).Some? then [n] else [])
  }

  lemma {:induction false} StartsComplete(items: seq<RolloutItem>, i: nat)
    requires i < |items| && TurnStartId(items[i]).Some?
    ensures i in Starts(items)
    decreases |items|
  {
    var n := |items| - 1;
    if i < n {
      StartsComplete(items[..n], i);
    }
  }

  /** The starts before position q are the starts of the first q items. */
  lemma {:induction false} StartsOfPrefix(items: seq<RolloutItem>, q: nat)
    requires q <= |items|
    ensures Starts(items[..q]) <= Starts(items)
    ensures forall k :: |Starts(items[..q])| <= k < |Starts(items)| ==> q <= Starts(items)[k]
    decreases |items|
  {
    if q < |items| {
      var n := |items| - 1;
      StartsOfPrefix(items[..n], q);
      assert items[..n][..q] == items[..q];
    } else {
      assert items[..q] == items;
    }
  }

  predicate StartsTurn(item: RolloutItem, id: Option<string>) {
    id.Some? && TurnStartId(item) == id
  }

  /** Where the page must end: at the first item that starts the cursor's turn, or at
      the end of the log when there is no cursor or no such turn. */
  function CursorPos(items: seq<RolloutItem>, before: Option<string>): (q: nat)
    ensures q <= |items|
    ensures q < |items| ==> StartsTurn(items[q], before)
    ensures forall i :: 0 <= i < q ==> !StartsTurn(items[i], before)
  {
    if items == [] || StartsTurn(items[0], before) then 0 else 1 + CursorPos(items[1..], before)
  }

  /** The page itself: the last limit turns before the cursor; a log without explicit
      turns is one page. */
  function ScanPage(items: seq<RolloutItem>, before: Option<string>, limit: nat): Page {
    var q := CursorPos(items, before);
    var starts := Starts(items[..q]);
    var n, k := |starts|, Max1(limit);
    if n == 0 then Page(items[..q], false)
    else if n > k then Page(items[starts[n - k]..q], true)
    else Page(items[starts[0]..q], false)
  }

  // ---------------------------------------------- the page in the items' own terms

  /** The item starts a turn, or the turn of this id. */
  predicate IsTurnStart(item: RolloutItem) {
    item.Event? && item.event.TurnStarted?
  }

  predicate IsStartOf(item: RolloutItem, id: string) {
    IsTurnStart(item) && item.event.turnId == id
  }

  /** q is where the page ends: the first start of the cursor's turn, or the log's end. */
  ghost predicate EndsAt(items: seq<RolloutItem>, before: Option<string>, q: nat) {
    && q <= |items|
    && (q < |items| ==> before.Some? && IsStartOf(items[q], before.value))
    && (before.Some? ==> forall i :: 0 <= i < q ==> !IsStartOf(items[i], before.value))
  }

  /** starts are the positions before q at which turns start, ascending. */
  ghost predicate AreStarts(items: seq<RolloutItem>, q: nat, starts: seq<nat>)
    requires q <= |items|
  {
    && (forall j, k :: 0 <= j < k < |starts| ==> starts[j] < starts[k])
    && (forall k :: 0 <= k < |starts| ==> starts[k] < q)
    && (forall i :: 0 <= i < q ==> (i in starts <==> IsTurnStart(items[i])))
  }

  /** Of n turns before the cursor the page holds the last limit, or the last one where
      limit is zero, or all; there is more behind it exactly when there are more. */
  lemma PageExactly(items: seq<RolloutItem>, before: Option<string>, limit: nat) returns (q: nat, starts: seq<nat>)
    ensures EndsAt(items, before, q) && AreStarts(items, q, starts)
    ensures q == CursorPos(items, before) && starts == Starts(items[..q])
    ensures var page, n := ScanPage(items, before, limit), |starts|;
            var m := if limit == 0 then 1 else limit;
            && (page.hasMore <==> n > m)
            && (n == 0 ==> page.items == items[..q])
            && (n > m ==> page.items == items[starts[n - m]..q])
            && (0 < n <= m ==> page.items == items[starts[0]..q])
  {
    hide Starts, CursorPos;
    q := CursorPos(items, before);
    starts := Starts(items[..q]);
    forall i | 0 <= i < q ensures i in starts <==> IsTurnStart(items[i]) {
      assert items[..q][i] == items[i];
      if IsTurnStart(items[i]) {
        StartsComplete(items[..q], i);
      }
    }
  }

  // ------------------------------------------------------------------ the window

  type Turn = seq<RolloutItem>

  /** `push_turn_page_chunk`: the window never grows past one more than a page. */
  method PushTurnPageChunk(window: seq<Turn>, chunk: Option<Turn>, pageLimit: nat) returns (r: seq<Turn>)
    requires |window| <= pageLimit + 1
    ensures r == Pushed(window, chunk, pageLimit)
  {
    if chunk.None? {
      return window;
    }
    r := window + [chunk.value];
    ghost var all := r;
    ghost var dropped := 0;
    while |r| > pageLimit + 1
      invariant dropped <= |all| && r == all[dropped..] && (dropped == 0 || |r| >= pageLimit + 1)
    {
      r := r[1..];
      dropped := dropped + 1;
    }
  }

  ghost predicate Rising(bounds: seq<nat>, top: nat) {
    && (forall k :: 0 <= k < |bounds| ==> bounds[k] <= top)
    && (forall k :: 0 < k < |bounds| ==> bounds[k - 1] <= bounds[k])
  }

  /** Consecutive bounds delimit the turns of the window, which ends at the last one. */
  ghost predicate Covers(items: seq<RolloutItem>, bounds: seq<nat>, window: seq<Turn>) {
    && |window| < |bounds|
    && Rising(bounds, |items|)
    && var m := |bounds| - 1 - |window|;
       forall j :: 0 <= j < |window| ==> window[j] == items[bounds[m + j]..bounds[m + j + 1]]
  }

  lemma CoversTail(items: seq<RolloutItem>, bounds: seq<nat>, window: seq<Turn>, d: nat)
    requires Covers(items, bounds, window) && d <= |window|
    ensures Covers(items, bounds, window[d..])
  {
  }

  lemma CoversPush(items: seq<RolloutItem>, bounds: seq<nat>, window: seq<Turn>, end: nat)
    requires Covers(items, bounds, window) && bounds[|bounds| - 1] <= end <= |items|
    ensures Covers(items, bounds + [end], window + [items[bounds[|bounds| - 1]..end]])
  {
  }

  lemma {:induction false} FlattenCovered(items: seq<RolloutItem>, bounds: seq<nat>, window: seq<Turn>)
    requires Covers(items, bounds, window)
    ensures var a, c := bounds[|bounds| - 1 - |window|], bounds[|bounds| - 1];
            a <= c <= |items| && Flatten(window) == items[a..c]
    decreases |window|
  {
    if window != [] {
      CoversTail(items, bounds, window, 1);
      FlattenCovered(items, bounds, window[1..]);
      var m := |bounds| - 1 - |window|;
      var a, b, c := bounds[m], bounds[m + 1], bounds[|bounds| - 1];
      assert window[0] == items[bounds[m + 0]..bounds[m + 0 + 1]];
      SliceConcat(items, a, b, c);
    }
  }

  lemma SliceConcat<T>(s: seq<T>, a: nat, b: nat, c: nat)
    requires a <= b <= c <= |s|
    ensures s[a..b] + s[b..c] == s[a..c]
  {
  }

  /** What the scan has collected after reading i items with no cursor among them. */
  ghost predicate Scanned(items: seq<RolloutItem>, i: nat, legacy: seq<RolloutItem>, window: seq<Turn>, current: Option<Turn>, k: nat)
    requires i <= |items|
  {
    var starts := Starts(items[..i]);
    var n := |starts|;
    if n == 0 then legacy == items[..i] && window == [] && current == None
    else
      && current == Some(items[starts[n - 1]..i])
      && Covers(items, starts, window)
      && |window| == Least(n - 1, k + 1)
  }

  /** The window after a push: the newest turns, at most one more than a page. */
  function Pushed(window: seq<Turn>, chunk: Option<Turn>, k: nat): seq<Turn> {
    if chunk.None? then window
    else
      var all := window + [chunk.value];
      if |all| <= k + 1 then all else all[|all| - (k + 1)..]
  }

  lemma StartsSnoc(items: seq<RolloutItem>, i: nat)
    requires i < |items|
    ensures Starts(items[..i + 1]) == Starts(items[..i]) + (if TurnStartId(items[i]).Some? then [i] else [])
  {
    assert items[..i + 1][..i] == items[..i];
  }

  lemma CoversPushed(items: seq<RolloutItem>, starts: seq<nat>, window: seq<Turn>, current: Turn, k: nat, end: nat)
    requires starts != [] && starts[|starts| - 1] <= end <= |items|
    requires current == items[starts[|starts| - 1]..end]
    requires Covers(items, starts, window) && |window| == Least(|starts| - 1, k + 1)
    ensures Covers(items, starts + [end], Pushed(window, Some(current), k))
    ensures |Pushed(window, Some(current), k)| == Least(|starts|, k + 1)
  {
    hide Covers;
    CoversPush(items, starts, window, end);
    var all := window + [current];
    if |all| > k + 1 {
      CoversTail(items, starts + [end], all, |all| - (k + 1));
    }
  }

  lemma ScannedStart(items: seq<RolloutItem>, i: nat, legacy: seq<RolloutItem>, window: seq<Turn>, current: Option<Turn>, k: nat)
    requires i < |items| && TurnStartId(items[i]).Some? && Scanned(items, i, legacy, window, current, k)
    ensures Scanned(items, i + 1, legacy, Pushed(window, current, k), Some([items[i]]), k)
  {
    hide Pushed, Starts;
    StartsSnoc(items, i);
    var starts := Starts(items[..i]);
    assert items[i..i + 1] == [items[i]];
    if starts == [] {
      assert Pushed(window, None, k) == window by { PushedNone(window, k); }
      assert Covers(items, [i], []);
    } else {
      CoversPushed(items, starts, window, current.value, k, i);
    }
  }

  lemma PushedNone(window: seq<Turn>, k: nat)
    ensures Pushed(window, None, k) == window
  {
  }

  lemma ScannedInside(items: seq<RolloutItem>, i: nat, legacy: seq<RolloutItem>, window: seq<Turn>, current: Option<Turn>, k: nat)
    requires i < |items| && TurnStartId(items[i]).None? && Scanned(items, i, legacy, window, current, k)
    ensures current.Some? ==> Scanned(items, i + 1, legacy, window, Some(current.value + [items[i]]), k)
    ensures current.None? ==> Scanned(items, i + 1, legacy + [items[i]], window, None, k)
  {
    hide Starts, Covers;
    StartsSnoc(items, i);
    var starts := Starts(items[..i]);
    assert starts + [] == starts;
    if current.Some? {
      var s := starts[|starts| - 1];
      assert items[s..i] + [items[i]] == items[s..i + 1];
    } else {
      assert items[..i] + [items[i]] == items[..i + 1];
    }
  }

  /** `load_rollout_items_page_by_scanning`, from the parsed lines on. */
  method ScanTurns(items: seq<RolloutItem>, before: Option<string>, limit: nat) returns (page: Page)
    ensures page == ScanPage(items, before, limit)
  {
    hide Scanned, Starts, Pushed, ScanPage;
    var pageLimit := Max1(limit);
    var sawExplicitTurn := false;
    var legacy: seq<RolloutItem> := [];
    var current: Option<Turn> := None;
    var window: seq<Turn> := [];
    var i := 0;
    ScannedNothing(items, pageLimit);
    while i < |items|
      invariant 0 <= i <= |items|
      invariant forall j :: 0 <= j < i ==> !StartsTurn(items[j], before)
      invariant Scanned(items, i, legacy, window, current, pageLimit)
      invariant sawExplicitTurn <==> current.Some?
      decreases |items| - i
    {
      var item := items[i];
      ScannedSize(items, i, legacy, window, current, pageLimit);
      if TurnStartId(item).Some? {
        if StartsTurn(item, before) {
          break;
        }
        sawExplicitTurn := true;
        ScannedStart(items, i, legacy, window, current, pageLimit);
        window := PushTurnPageChunk(window, current, pageLimit);
        current := Some([item]);
      } else {
        ScannedInside(items, i, legacy, window, current, pageLimit);
        if current.Some? {
          current := Some(current.value + [item]);
        } else {
          legacy := legacy + [item];
        }
      }
      i := i + 1;
    }
    CursorIs(items, before, i);
    ScannedSize(items, i, legacy, window, current, pageLimit);
    PageOfScan(items, before, limit, i, legacy, window, current);
    window := PushTurnPageChunk(window, current, pageLimit);
    if !sawExplicitTurn {
      return Page(legacy, false);
    }
    var hasMore := |window| > pageLimit;
    if hasMore {
      window := window[1..];
    }
    return Page(Flatten(window), hasMore);
  }

  lemma ScannedNothing(items: seq<RolloutItem>, k: nat)
    ensures Scanned(items, 0, [], [], None, k)
  {
    assert items[..0] == [];
  }

  lemma ScannedSize(items: seq<RolloutItem>, i: nat, legacy: seq<RolloutItem>, window: seq<Turn>, current: Option<Turn>, k: nat)
    requires i <= |items| && Scanned(items, i, legacy, window, current, k)
    ensures |window| <= k + 1
  {
  }

  lemma CursorIs(items: seq<RolloutItem>, before: Option<string>, i: nat)
    requires i <= |items|
    requires i < |items| ==> StartsTurn(items[i], before)
    requires forall j :: 0 <= j < i ==> !StartsTurn(items[j], before)
    ensures CursorPos(items, before) == i
  {
  }

  /** After the last push the window holds the last limit + 1 turns; dropping the extra
      one leaves the page. */
  lemma PageOfScan(items: seq<RolloutItem>, before: Option<string>, limit: nat, q: nat,
                   legacy: seq<RolloutItem>, window: seq<Turn>, current: Option<Turn>)
    requires q == CursorPos(items, before) && Scanned(items, q, legacy, window, current, Max1(limit))
    ensures var k := Max1(limit);
            var kept := Pushed(window, current, k);
            ScanPage(items, before, limit) ==
            if current.None? then Page(legacy, false)
            else if |kept| > k then Page(Flatten(kept[1..]), true)
            else Page(Flatten(kept), false)
  {
    hide Starts, Pushed, CursorPos, Covers, Flatten, Max1;
    var k := Max1(limit);
    var starts := Starts(items[..q]);
    if starts != [] {
      CoversPushed(items, starts, window, current.value, k, q);
      KeptTurns(items, starts, q, Pushed(window, current, k), k);
    }
  }

  lemma KeptTurns(items: seq<RolloutItem>, starts: seq<nat>, q: nat, kept: seq<Turn>, k: nat)
    requires starts != [] && Covers(items, starts + [q], kept) && |kept| == Least(|starts|, k + 1) && k > 0
    ensures var n := |starts|;
            var a := if n > k then starts[n - k] else starts[0];
            a <= q <= |items| && Flatten(if n > k then kept[1..] else kept) == items[a..q]
  {
    hide Covers, Flatten;
    var n, bounds := |starts|, starts + [q];
    assert bounds[n] == q && bounds[0] == starts[0] && kept[0..] == kept;
    if n > k {
      assert bounds[n - k] == starts[n - k];
      NewestTurns(items, bounds, kept, 1);
    } else {
      NewestTurns(items, bounds, kept, 0);
    }
  }

  lemma NewestTurns(items: seq<RolloutItem>, bounds: seq<nat>, kept: seq<Turn>, drop: nat)
    requires Covers(items, bounds, kept) && drop <= |kept|
    ensures var a, c := bounds[|bounds| - 1 - (|kept| - drop)], bounds[|bounds| - 1];
            a <= c <= |items| && Flatten(kept[drop..]) == items[a..c]
  {
    hide Flatten;
    CoversTail(items, bounds, kept, drop);
    FlattenCovered(items, bounds, kept[drop..]);
  }

  // ------------------------------------------------------------- walking back

  /** The next cursor: the first turn of the page just shown. */
  function NextCursor(page: Page): Option<string> {
    if page.items == [] then None else TurnStartId(page.items[0])
  }

  ghost predicate DistinctTurns(items: seq<RolloutItem>) {
    forall i, j :: 0 <= i < j < |items| && TurnStartId(items[i]).Some? ==> TurnStartId(items[i]) != TurnStartId(items[j])
  }

  /** A page with more behind it starts with a turn whose id leads back to its start: as
      many turns before the cursor as the page holds. */
  lemma CursorLeadsBack(items: seq<RolloutItem>, before: Option<string>, limit: nat)
    requires DistinctTurns(items) && ScanPage(items, before, limit).hasMore
    ensures var page := ScanPage(items, before, limit);
            var starts := Starts(items[..CursorPos(items, before)]);
            var m := if limit == 0 then 1 else limit;
            && NextCursor(page).Some?
            && |starts| > m && CursorPos(items, NextCursor(page)) == starts[|starts| - m]
  {
    hide ScanPage, Starts, CursorPos;
    var q, starts := PageExactly(items, before, limit);
    var s := starts[|starts| - if limit == 0 then 1 else limit];
    assert s in starts && IsTurnStart(items[s]);
    assert ScanPage(items, before, limit).items[0] == items[s];
    CursorIs(items, TurnStartId(items[s]), s);
  }

  /** Pages from the newest back, until one says there is nothing more. */
  function Walk(items: seq<RolloutItem>, before: Option<string>, limit: nat): seq<Page>
    requires DistinctTurns(items)
    decreases CursorPos(items, before)
  {
    var page := ScanPage(items, before, limit);
    if !page.hasMore then [page]
    else
      CursorLeadsBack(items, before, limit);
      [page] + Walk(items, NextCursor(page), limit)
  }

  /** The pages joined oldest first. */
  function OldestFirst(pages: seq<Page>): seq<RolloutItem> {
    if pages == [] then [] else OldestFirst(pages[1..]) + pages[0].items
  }

  lemma StartsBefore(items: seq<RolloutItem>, q: nat, j: nat)
    requires q <= |items| && j < |Starts(items[..q])|
    ensures Starts(items[..Starts(items[..q])[j]]) == Starts(items[..q])[..j]
  {
    var starts := Starts(items[..q]);
    var s := starts[j];
    var before := Starts(items[..s]);
    var next := if |before| < |starts| then starts[|before|] else s;
    var last := if j < |before| then before[j] else s;
    assert items[..q][..s] == items[..s];
    StartsOfPrefix(items[..q], s);
  }

  /** ceil(turns / max(limit, 1)) pages, which make up the log from its first turn on:
      every turn once, in order. */
  ghost predicate CoversLog(items: seq<RolloutItem>, before: Option<string>, limit: nat, pages: seq<Page>) {
    var q := CursorPos(items, before);
    var starts := Starts(items[..q]);
    if starts == [] then pages == [Page(items[..q], false)]
    else
      && OldestFirst(pages) == items[starts[0]..q]
      && var m := if limit == 0 then 1 else limit;
         |pages| == (|starts| + m - 1) / m
  }

  /** The walk over the whole log ends, and misses and repeats nothing. */
  lemma {:induction false} WalkCoversLog(items: seq<RolloutItem>, before: Option<string>, limit: nat)
    requires DistinctTurns(items)
    ensures CoversLog(items, before, limit, Walk(items, before, limit))
    decreases CursorPos(items, before)
  {
    hide CoversLog;
    var page := ScanPage(items, before, limit);
    if page.hasMore {
      CursorLeadsBack(items, before, limit);
      WalkCoversLog(items, NextCursor(page), limit);
      CoversLogStep(items, before, limit);
    } else {
      CoversLogLast(items, before, limit);
    }
  }

  lemma CoversLogLast(items: seq<RolloutItem>, before: Option<string>, limit: nat)
    requires DistinctTurns(items) && !ScanPage(items, before, limit).hasMore
    ensures CoversLog(items, before, limit, Walk(items, before, limit))
  {
    hide Starts, CursorPos;
    var page := ScanPage(items, before, limit);
    var pages := Walk(items, before, limit);
    assert pages == [page] && pages[1..] == [];
    assert OldestFirst([]) + page.items == page.items;
    var starts := Starts(items[..CursorPos(items, before)]);
    if starts != [] {
      CeilOne(|starts|, Max1(limit));
    }
  }

  lemma CoversLogStep(items: seq<RolloutItem>, before: Option<string>, limit: nat)
    requires DistinctTurns(items)
    requires var page := ScanPage(items, before, limit);
             page.hasMore && CoversLog(items, NextCursor(page), limit, Walk(items, NextCursor(page), limit))
    ensures CoversLog(items, before, limit, Walk(items, before, limit))
  {
    hide Starts, CursorPos, Walk, OldestFirst;
    var q := CursorPos(items, before);
    var starts := Starts(items[..q]);
    var n, k := |starts|, Max1(limit);
    CursorLeadsBack(items, before, limit);
    WalkStep(items, before, limit);
    StartsBefore(items, q, n - k);
    assert starts[..n - k][0] == starts[0];
    SliceConcat(items, starts[0], starts[n - k], q);
    CeilStep(n, k);
  }

  lemma WalkStep(items: seq<RolloutItem>, before: Option<string>, limit: nat)
    requires DistinctTurns(items) && ScanPage(items, before, limit).hasMore
    ensures var page := ScanPage(items, before, limit);
            var pages, older := Walk(items, before, limit), Walk(items, NextCursor(page), limit);
            |pages| == 1 + |older| && OldestFirst(pages) == OldestFirst(older) + page.items
  {
    hide ScanPage;
    var page := ScanPage(items, before, limit);
    assert Walk(items, before, limit)[1..] == Walk(items, NextCursor(page), limit);
  }

  lemma CeilStep(n: nat, k: nat)
    requires n > k > 0
    ensures (n + k - 1) / k == 1 + (n - k + k - 1) / k
  {
    var m := n - 1;
    var d, r := m / k, m % k;
    assert m == d * k + r;
    DivIs(m + k, k, d + 1, r);
  }

  lemma CeilOne(n: nat, k: nat)
    requires 0 < n <= k
    ensures (n + k - 1) / k == 1
  {
    DivIs(n + k - 1, k, 1, n - 1);
  }

  lemma DivIs(m: nat, k: nat, d: nat, r: nat)
    requires k > 0 && r < k && m == d * k + r
    ensures m / k == d
  {
    var e := m / k;
    assert e < d ==> (e + 1) * k <= d * k;
    assert e > d ==> (d + 1) * k <= e * k;
  }
}
