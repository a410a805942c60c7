/**
 What can be read back from a rollout log: which lines are recorded, that a slice
 between line starts reads as the records that lie in it, that appended records
 come back with the offsets they were written at, and what a torn write loses.
 */
module RolloutRecovery {
  import opened Wrappers
  import opened Sequences
  import opened Utf8
  import opened Text
  import opened RolloutLog

  // ------------------------------------------------------ texts of whole lines

  predicate EndsInLine(text: seq<byte>) {
    text == [] || text[|text| - 1] == NEWLINE
  }

  function Join(a: Lines, b: Lines): Lines {
    match a
    case Err(e) => Err(e)
    case Ok(front) => Prepend(front, b)
  }

  function LineCount(text: seq<byte>): nat {
    |SplitInclusive(text)|
  }

  lemma {:induction false} SegmentOfConcat(a: seq<byte>, b: seq<byte>)
    requires a != [] && a[SegmentLength(a) - 1] == NEWLINE
    ensures SegmentLength(a + b) == SegmentLength(a)
    decreases |a|
  {
    assert (a + b)[0] == a[0];
    if a[0] != NEWLINE && |a| > 1 {
      assert (a + b)[1..] == a[1..] + b;
      SegmentOfConcat(a[1..], b);
    }
  }

  lemma EndsInLineStep(a: seq<byte>)
    requires a != [] && EndsInLine(a)
    ensures var n := SegmentLength(a); a[n - 1] == NEWLINE && EndsInLine(a[n..])
  {
  }

  /** Whole lines can be parsed apart from what follows them. */
  lemma {:induction false} ParseConcat(codec: Codec, a: seq<byte>, b: seq<byte>, offset: nat, lineNo: nat)
    requires EndsInLine(a)
    ensures ParseFrom(codec, a + b, offset, lineNo)
         == Join(ParseFrom(codec, a, offset, lineNo), ParseFrom(codec, b, offset + |a|, lineNo + LineCount(a)))
    decreases |a|
  {
    hide ParsedSegment, SegmentLength, ParseFrom, SplitInclusive;
    var rest := ParseFrom(codec, b, offset + |a|, lineNo + LineCount(a));
    if a == [] {
      assert a + b == b;
      NothingToParse(codec, offset, lineNo);
      SplitNonEmpty(a);
      EmptyFront(rest);
    } else {
      var n := SegmentLength(a);
      EndsInLineStep(a);
      SegmentOfConcat(a, b);
      SplitStep(a);
      assert (a + b)[..n] == a[..n] && (a + b)[n..] == a[n..] + b;
      ParseStep(codec, a, offset, lineNo);
      ParseStep(codec, a + b, offset, lineNo);
      ParseConcat(codec, a[n..], b, offset + n, lineNo + 1);
      var first := ParsedSegment(codec, a[..n], offset, lineNo);
      var more := ParseFrom(codec, a[n..], offset + n, lineNo + 1);
      if first.Ok? && more.Ok? {
        PrependTwice(first.value, more.value, rest);
      }
    }
  }

  /** The same lines d bytes further on. */
  ghost predicate Moved(r: Lines, r': Lines, d: int) {
    && (r.Ok? <==> r'.Ok?)
    && (r.Ok? ==>
          && |r.value| == |r'.value|
          && forall k :: 0 <= k < |r.value| ==>
               r.value[k].item == r'.value[k].item && r'.value[k].startOffset == r.value[k].startOffset + d)
  }

  lemma MovedPrepend(a: seq<ParsedLine>, r: Lines, a': seq<ParsedLine>, r': Lines, d: int)
    requires Moved(Ok(a), Ok(a'), d) && Moved(r, r', d)
    ensures Moved(Prepend(a, r), Prepend(a', r'), d)
  {
  }

  /** The offset and line number a text starts with only move the recorded offsets
      and the number in an error. */
  lemma {:induction false} ParseElsewhere(codec: Codec, text: seq<byte>, o: nat, n: nat, o': nat, n': nat)
    ensures Moved(ParseFrom(codec, text, o, n), ParseFrom(codec, text, o', n'), o' - o)
    decreases |text|
  {
    hide ParseFrom, SegmentLength, Trim;
    if text == [] {
      NothingToParse(codec, o, n);
      NothingToParse(codec, o', n');
    } else {
      var m := SegmentLength(text);
      ParseStep(codec, text, o, n);
      ParseStep(codec, text, o', n');
      ParseElsewhere(codec, text[m..], o + m, n + 1, o' + m, n' + 1);
      var s, s' := ParsedSegment(codec, text[..m], o, n), ParsedSegment(codec, text[..m], o', n');
      if s.Ok? {
        MovedPrepend(s.value, ParseFrom(codec, text[m..], o + m, n + 1), s'.value, ParseFrom(codec, text[m..], o' + m, n' + 1), o' - o);
      }
    }
  }

  /** Offsets lie inside the text and increase. */
  ghost predicate Ascending(lines: seq<ParsedLine>, lo: nat, hi: nat) {
    && (forall k :: 0 <= k < |lines| ==> lo <= lines[k].startOffset < hi)
    && (forall j, k :: 0 <= j < k < |lines| ==> lines[j].startOffset < lines[k].startOffset)
  }

  lemma {:induction false} OffsetsAscend(codec: Codec, text: seq<byte>, offset: nat, lineNo: nat)
    ensures var r := ParseFrom(codec, text, offset, lineNo);
            r.Ok? ==> Ascending(r.value, offset, offset + |text|)
    decreases |text|
  {
    hide Trim, SegmentLength;
    if text != [] {
      OffsetsAscend(codec, text[SegmentLength(text)..], offset + SegmentLength(text), lineNo + 1);
    }
  }

  // ---------------------------------------------------- which lines are recorded

  predicate IsRecord(codec: Codec, line: seq<byte>, item: RolloutItem) {
    Trim(line) != [] && codec.decode(Trim(line)) == Some(item)
  }

  ghost predicate HasRecord(codec: Codec, text: seq<byte>, i: nat, item: RolloutItem) {
    exists j: nat :: IsLine(text, i, j) && IsRecord(codec, text[i..j], item)
  }

  lemma RecordWitness(codec: Codec, text: seq<byte>, i: nat, j: nat, item: RolloutItem)
    requires IsLine(text, i, j) && IsRecord(codec, text[i..j], item)
    ensures HasRecord(codec, text, i, item)
  {
  }

  lemma RecordIs(codec: Codec, text: seq<byte>, i: nat, item: RolloutItem) returns (j: nat)
    requires HasRecord(codec, text, i, item)
    ensures i < j <= |text| && IsLine(text, i, j) && IsRecord(codec, text[i..j], item)
  {
    j :| IsLine(text, i, j) && IsRecord(codec, text[i..j], item);
  }

  lemma RecordHere(codec: Codec, text: seq<byte>, i: nat, item: RolloutItem)
    requires text != [] && HasRecord(codec, text, i, item)
    ensures var n := SegmentLength(text);
            if i == 0 then IsRecord(codec, text[..n], item) else i >= n && HasRecord(codec, text[n..], i - n, item)
  {
    hide IsRecord, SegmentLength, IsLine, HasRecord;
    var n := SegmentLength(text);
    var j := RecordIs(codec, text, i, item);
    FirstIsLine(text);
    FirstLineIs(text, i, j);
    if i == 0 {
      assert text[0..n] == text[..n];
    } else {
      LineShift(text, n, i - n, j - n);
      RecordWitness(codec, text[n..], i - n, j - n, item);
    }
  }

  lemma RecordThere(codec: Codec, text: seq<byte>, i: nat, item: RolloutItem)
    requires text != []
    requires var n := SegmentLength(text);
             if i == 0 then IsRecord(codec, text[..n], item) else i >= n && HasRecord(codec, text[n..], i - n, item)
    ensures HasRecord(codec, text, i, item)
  {
    hide IsRecord, SegmentLength, IsLine, HasRecord;
    var n := SegmentLength(text);
    FirstIsLine(text);
    if i == 0 {
      RecordWitness(codec, text, 0, n, item);
    } else {
      var j := RecordIs(codec, text[n..], i - n, item);
      LineShift(text, n, i - n, j);
      RecordWitness(codec, text, i, n + j, item);
    }
  }

  lemma HasRecordStep(codec: Codec, text: seq<byte>, i: nat, item: RolloutItem)
    requires text != []
    ensures var n := SegmentLength(text);
            && (i == 0 ==> (HasRecord(codec, text, i, item) <==> IsRecord(codec, text[..n], item)))
            && (0 < i < n ==> !HasRecord(codec, text, i, item))
            && (i >= n ==> (HasRecord(codec, text, i, item) <==> HasRecord(codec, text[n..], i - n, item)))
  {
    hide IsRecord, SegmentLength, HasRecord;
    var n := SegmentLength(text);
    if HasRecord(codec, text, i, item) {
      RecordHere(codec, text, i, item);
    } else if i == 0 && IsRecord(codec, text[..n], item) {
      RecordThere(codec, text, i, item);
    } else if i >= n && HasRecord(codec, text[n..], i - n, item) {
      RecordThere(codec, text, i, item);
    }
  }

  /** A line is recorded, at its own start, exactly when it holds a record; with the
      ascending offsets this fixes the whole list. */
  lemma {:induction false} RecordedLines(codec: Codec, text: seq<byte>, offset: nat, lineNo: nat, i: nat, item: RolloutItem)
    requires ParseFrom(codec, text, offset, lineNo).Ok?
    ensures ParsedLine(item, offset + i) in ParseFrom(codec, text, offset, lineNo).value <==> HasRecord(codec, text, i, item)
    decreases |text|
  {
    hide Trim, SegmentLength, HasRecord;
    if text == [] {
      NoRecordInNothing(codec, i, item);
    } else {
      var n := SegmentLength(text);
      HasRecordStep(codec, text, i, item);
      OffsetsAscend(codec, text[n..], offset + n, lineNo + 1);
      if i >= n {
        RecordedLines(codec, text[n..], offset + n, lineNo + 1, i - n, item);
      }
    }
  }

  lemma NoRecordInNothing(codec: Codec, i: nat, item: RolloutItem)
    ensures !HasRecord(codec, [], i, item)
  {
  }

  // ------------------------------------------------------------------- slicing

  /** Bytes between two line starts, or from one to the end, read as the records
      whose offsets lie between them: no more, no fewer, in order. */
  lemma SliceReadsRange(codec: Codec, text: seq<byte>, i: nat, j: nat) returns (lo: nat, hi: nat)
    requires ParseText(codec, text).Ok?
    requires i <= j && AtLineStart(text, i) && (AtLineStart(text, j) || j == |text|)
    ensures var lines := ParseText(codec, text).value;
            && lo <= hi <= |lines|
            && (forall k :: 0 <= k < |lines| ==> (i <= lines[k].startOffset < j <==> lo <= k < hi))
            && ParseText(codec, text[i..j]).Ok?
            && Items(ParseText(codec, text[i..j]).value) == Items(lines[lo..hi])
  {
    hide ParseFrom, SplitInclusive;
    var a, m, b := text[..i], text[i..j], text[j..];
    assert text == a + (m + b);
    assert EndsInLine(a);
    ParseConcat(codec, a, m + b, 0, 1);
    var n := 1 + LineCount(a);
    var r := ParseFrom(codec, m, i, n);
    if j < |text| || b != [] {
      assert EndsInLine(m);
      ParseConcat(codec, m, b, i, n);
    } else {
      assert m + b == m;
      NothingToParse(codec, j, n + LineCount(m));
    }
    ParseElsewhere(codec, m, i, n, 0, 1);
    OffsetsAscend(codec, a, 0, 1);
    OffsetsAscend(codec, m, i, n);
    OffsetsAscend(codec, b, j, n + LineCount(m));
    var before, after := ParseFrom(codec, a, 0, 1).value, ParseFrom(codec, b, j, n + LineCount(m));
    var tail := if after.Ok? && j < |text| then after.value else [];
    var lines := ParseText(codec, text).value;
    assert lines == before + r.value + tail;
    lo, hi := |before|, |before| + |r.value|;
    assert lines[lo..hi] == r.value;
  }

  lemma ValidAtLineStart(text: seq<byte>, k: nat)
    requires Valid(text) && AtLineStart(text, k)
    ensures Valid(text[..k]) && Valid(text[k..])
  {
    hide Valid;
    if k == 0 {
      assert text[..0] == [] && text[0..] == text;
      assert Valid([]) by { EmptyIsValid(); }
    } else {
      var before, after := text[..k - 1], text[k..];
      assert text == before + [text[k - 1]] + after;
      ValidSplitAtAscii(before, text[k - 1], after);
      assert text[..k] == before + [text[k - 1]];
    }
  }

  lemma EmptyIsValid()
    ensures Valid([])
  {
  }

  /** A slice between line starts never cuts a character in two. */
  lemma SliceIsValid(text: seq<byte>, i: nat, j: nat)
    requires Valid(text) && i <= j
    requires AtLineStart(text, i) && (AtLineStart(text, j) || j == |text|)
    ensures Valid(text[i..j])
  {
    hide Valid;
    if j == |text| {
      ValidAtLineStart(text, i);
      assert text[i..] == text[i..j];
    } else {
      ValidAtLineStart(text, j);
      ValidAtLineStart(text[..j], i);
      assert text[..j][i..] == text[i..j];
    }
  }

  // ------------------------------------------------------ reading what was appended

  lemma TrimStartOfObject(s: seq<byte>)
    requires s != [] && s[0] == OPEN_BRACE
    ensures TrimStart(s) == s
  {
  }

  /** The newline after a record, and nothing else, is trimmed away. */
  lemma TrimObjectLine(s: seq<byte>)
    requires IsObjectLine(s)
    ensures Trim(s + [NEWLINE]) == s && Trim(s) == s
  {
    TrimStartOfObject(s);
    TrimStartOfObject(s + [NEWLINE]);
    assert SpaceAtEnd(s) == 0;
    var t := s + [NEWLINE];
    assert SpaceAtEnd(t) == 1;
    assert t[..|t| - 1] == s;
    assert TrimEnd(s) == s && TrimEnd(t) == TrimEnd(s);
  }

  /** A record cut short trims to something that is not a record. */
  lemma TrimTornObject(s: seq<byte>, t: seq<byte>)
    requires IsObjectLine(s) && t < s && t != []
    ensures Trim(t) < s
  {
    TrimStartOfObject(t);
    var trail := TrimEndDropsSpace(t);
  }

  lemma ObjectSegment(s: seq<byte>, rest: seq<byte>)
    requires NEWLINE !in s
    ensures SegmentLength(s + [NEWLINE] + rest) == |s| + 1
    decreases |s|
  {
    var t := s + [NEWLINE] + rest;
    if s != [] {
      assert t[0] == s[0];
      assert t[1..] == s[1..] + [NEWLINE] + rest;
      ObjectSegment(s[1..], rest);
    }
  }

  /** Where an uninterrupted writer puts each record: `next_offset` before the write. */
  function WrittenLines(codec: Codec, items: seq<RolloutItem>, offset: nat): seq<ParsedLine> {
    if items == [] then []
    else [ParsedLine(items[0], offset)] + WrittenLines(codec, items[1..], offset + |Line(codec, items[0])|)
  }

  lemma ParseRecordLine(codec: Codec, item: RolloutItem, rest: seq<byte>, offset: nat, lineNo: nat)
    requires codec.Lawful()
    ensures ParseFrom(codec, Line(codec, item) + rest, offset, lineNo)
         == Prepend([ParsedLine(item, offset)], ParseFrom(codec, rest, offset + |Line(codec, item)|, lineNo + 1))
  {
    hide ParseFrom, SegmentLength, Trim;
    var s := codec.encode(item);
    var line := Line(codec, item);
    assert IsObjectLine(s) && codec.decode(s) == Some(item);
    ObjectSegment(s, rest);
    TrimObjectLine(s);
    assert (line + rest)[..|line|] == line && (line + rest)[|line|..] == rest;
    ParseStep(codec, line + rest, offset, lineNo);
  }

  /** Everything appended comes back, in order, at the offsets the writer computed;
      whatever follows is read as if it stood alone. */
  lemma {:induction false} ParseRendered(codec: Codec, items: seq<RolloutItem>, tail: seq<byte>, offset: nat, lineNo: nat)
    requires codec.Lawful()
    ensures ParseFrom(codec, Render(codec, items) + tail, offset, lineNo)
         == Prepend(WrittenLines(codec, items, offset),
                    ParseFrom(codec, tail, offset + |Render(codec, items)|, lineNo + |items|))
    decreases |items|
  {
    hide ParseFrom;
    var rest := ParseFrom(codec, tail, offset + |Render(codec, items)|, lineNo + |items|);
    if items == [] {
      assert Render(codec, items) + tail == tail;
      EmptyFront(rest);
    } else {
      var line := Line(codec, items[0]);
      Associative(line, Render(codec, items[1..]), tail);
      ParseRecordLine(codec, items[0], Render(codec, items[1..]) + tail, offset, lineNo);
      ParseRendered(codec, items[1..], tail, offset + |line|, lineNo + 1);
      PrependTwice([ParsedLine(items[0], offset)], WrittenLines(codec, items[1..], offset + |line|), rest);
    }
  }

  lemma ParseWhole(codec: Codec, items: seq<RolloutItem>)
    requires codec.Lawful()
    ensures ParseText(codec, Render(codec, items)) == Ok(WrittenLines(codec, items, 0))
  {
    hide ParseFrom;
    ParseRendered(codec, items, [], 0, 1);
    assert Render(codec, items) + [] == Render(codec, items);
    NothingToParse(codec, |Render(codec, items)|, 1 + |items|);
    assert WrittenLines(codec, items, 0) + [] == WrittenLines(codec, items, 0);
  }

  lemma {:induction false} WrittenItems(codec: Codec, items: seq<RolloutItem>, offset: nat)
    ensures Items(WrittenLines(codec, items, offset)) == items
  {
    if items != [] {
      WrittenItems(codec, items[1..], offset + |Line(codec, items[0])|);
      var rest := WrittenLines(codec, items[1..], offset + |Line(codec, items[0])|);
      assert Items([ParsedLine(items[0], offset)] + rest) == [items[0]] + Items(rest);
    }
  }

  // ----------------------------------------------------------------- torn writes

  /** An interrupted write leaves whole lines and a part of the next one. */
  lemma {:induction false} PrefixOfLog(codec: Codec, items: seq<RolloutItem>, p: seq<byte>) returns (k: nat, t: seq<byte>)
    requires p <= Render(codec, items)
    ensures k <= |items| && p == Render(codec, items[..k]) + t
    ensures k == |items| ==> t == []
    ensures k < |items| ==> t <= codec.encode(items[k])
    decreases |items|
  {
    if items == [] {
      k, t := 0, [];
      assert items[..0] == items;
    } else {
      var line := Line(codec, items[0]);
      var whole := Render(codec, items);
      if |p| < |line| {
        k, t := 0, p;
        assert items[..0] == [];
        assert p == whole[..|p|] && whole[..|line|] == line;
        assert p == line[..|p|] == codec.encode(items[0])[..|p|];
      } else {
        var rest := p[|line|..];
        assert whole[..|line|] == line && whole[|line|..] == Render(codec, items[1..]);
        assert p[..|line|] == line;
        assert rest == whole[|line|..|p|];
        var k', t' := PrefixOfLog(codec, items[1..], rest);
        k, t := k' + 1, t';
        assert items[..k][1..] == items[1..][..k'];
        Associative(line, Render(codec, items[1..][..k']), t);
        Rejoin(p, |line|);
      }
    }
  }

  lemma ParseTorn(codec: Codec, item: RolloutItem, t: seq<byte>, offset: nat, lineNo: nat)
    requires codec.Lawful() && t <= codec.encode(item)
    ensures ParseFrom(codec, t, offset, lineNo)
         == Ok(if t == codec.encode(item) then [ParsedLine(item, offset)] else [])
  {
    hide Trim, SegmentLength;
    var s := codec.encode(item);
    assert IsObjectLine(s) && codec.decode(s) == Some(item);
    if t != [] {
      assert NEWLINE !in t;
      NoNewlineSegment(t);
      assert t[|t| - 1] in t;
      assert t[..|t|] == t && t[|t|..] == [];
      if t == s {
        TrimObjectLine(s);
        assert [ParsedLine(item, offset)] + [] == [ParsedLine(item, offset)];
      } else {
        TrimTornObject(s, t);
        assert codec.decode(Trim(t)) == None;
        EmptyFront(Ok([]));
      }
    }
  }

  lemma NoNewlineSegment(t: seq<byte>)
    requires t != [] && NEWLINE !in t
    ensures SegmentLength(t) == |t|
    decreases |t|
  {
    if |t| > 1 {
      assert forall b :: b in t[1..] ==> b in t;
      NoNewlineSegment(t[1..]);
    }
  }

  lemma {:induction false} RenderIsValid(codec: Codec, items: seq<RolloutItem>)
    requires codec.Lawful()
    ensures Valid(Render(codec, items)) && EndsInLine(Render(codec, items))
  {
    hide Valid;
    if items == [] {
      EmptyIsValid();
    } else {
      var s := codec.encode(items[0]);
      assert IsObjectLine(s);
      RenderIsValid(codec, items[1..]);
      ValidConcat(s, [NEWLINE]);
      assert Valid([NEWLINE]) by { NewlineIsValid(); }
      ValidConcat(Line(codec, items[0]), Render(codec, items[1..]));
    }
  }

  lemma NewlineIsValid()
    ensures Valid([NEWLINE])
  {
    assert [NEWLINE][1..] == [];
  }

  /** However many bytes of an append reached the file: it is readable exactly when
      the cut is not inside a character; and then the result is the appended items
      up to the torn one, which is lost unless all but its newline was written. */
  lemma TornTail(codec: Codec, items: seq<RolloutItem>, p: seq<byte>) returns (k: nat, t: seq<byte>)
    requires codec.Lawful() && p <= Render(codec, items)
    ensures k <= |items| && p == Render(codec, items[..k]) + t
    ensures k == |items| ==> t == []
    ensures k < |items| ==> t <= codec.encode(items[k])
    ensures Valid(p) <==> Valid(t)
    ensures ParseText(codec, p).Ok?
    ensures var kept := if k < |items| && t == codec.encode(items[k]) then k + 1 else k;
            Items(ParseText(codec, p).value) == items[..kept]
  {
    hide Valid, ParseFrom;
    k, t := PrefixOfLog(codec, items, p);
    var front := items[..k];
    RenderIsValid(codec, front);
    ValidConcat(Render(codec, front), t);
    ParseRendered(codec, front, t, 0, 1);
    var offset := |Render(codec, front)|;
    WrittenItems(codec, front, 0);
    if k < |items| {
      ParseTorn(codec, items[k], t, offset, 1 + k);
      assert items[..k + 1] == front + [items[k]];
    } else {
      NothingToParse(codec, offset, 1 + k);
    }
  }
}
