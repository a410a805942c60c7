/**
 The rollout log: one record a line, appended and never rewritten. A file is its
 bytes; a text is a file that is valid UTF-8, so text offsets are byte offsets.
 How a record is encoded and decoded is a parameter, bound by the laws below.
 */
module RolloutLog {
  import opened Wrappers
  import opened Sequences
  import opened Utf8
  import opened Text

  // ------------------------------------------------------------------- records

  /** Lasting stands for the other event kinds that are persisted, Passing for those
      that are not. */
  datatype EventMsg = TurnStarted(turnId: string, body: string) | Lasting(body: string) | Passing(body: string)

  datatype RolloutItem = Event(event: EventMsg) | ResponseItem(body: string) | Compacted(body: string)

  function TurnStartId(item: RolloutItem): Option<string> {
    match item
    case Event(TurnStarted(id, _)) => Some(id)
    case _ => None
  }

  predicate IsPersisted(item: RolloutItem) {
    !(item.Event? && item.event.Passing?)
  }

  function PersistedItems(items: seq<RolloutItem>): seq<RolloutItem> {
    if items == [] then []
    else (if IsPersisted(items[0]) then [items[0]] else []) + PersistedItems(items[1..])
  }

  /** An event that is not persisted. */
  predicate IsPassing(item: RolloutItem) {
    item.Event? && item.event.Passing?
  }

  /** at are the positions of the items that are not passing events, ascending. */
  ghost predicate AreLasting(items: seq<RolloutItem>, at: seq<nat>) {
    && (forall j, k :: 0 <= j < k < |at| ==> at[j] < at[k])
    && (forall k :: 0 <= k < |at| ==> at[k] < |items|)
    && (forall i :: 0 <= i < |items| ==> (i in at <==> !IsPassing(items[i])))
  }

  /** Persisting keeps exactly those items, in the order given. */
  lemma {:induction false} PersistedAre(items: seq<RolloutItem>) returns (at: seq<nat>)
    ensures AreLasting(items, at)
    ensures |PersistedItems(items)| == |at|
    ensures forall k :: 0 <= k < |at| ==> PersistedItems(items)[k] == items[at[k]]
    decreases |items|
  {
    hide PersistedItems, AreLasting;
    PersistedStep(items);
    if items == [] {
      at := [];
      assert AreLasting(items, at) by { NoneLasting(); }
    } else {
      var rest := PersistedAre(items[1..]);
      assert AreLasting(items[1..], rest);
      at := (if IsPassing(items[0]) then [] else [0]) + Shifted(rest);
      LastingStep(items, rest, at);
      LastingWithin(items, at);
      LastingWithin(items[1..], rest);
      forall k | 0 <= k < |at| ensures PersistedItems(items)[k] == items[at[k]] {
        var n := |at| - |rest|;
        if k >= n {
          assert at[k] == rest[k - n] + 1;
        }
      }
    }
  }

  function Shifted(s: seq<nat>): (r: seq<nat>)
    ensures |r| == |s| && forall k :: 0 <= k < |s| ==> r[k] == s[k] + 1
  {
    seq(|s|, k requires 0 <= k < |s| => s[k] + 1)
  }

  lemma PersistedStep(items: seq<RolloutItem>)
    ensures items == [] ==> PersistedItems(items) == []
    ensures items != [] ==> PersistedItems(items) == (if IsPassing(items[0]) then [] else [items[0]]) + PersistedItems(items[1..])
  {
  }

  lemma NoneLasting()
    ensures AreLasting([], [])
  {
  }

  lemma LastingWithin(items: seq<RolloutItem>, at: seq<nat>)
    requires AreLasting(items, at)
    ensures forall k :: 0 <= k < |at| ==> at[k] < |items|
  {
  }

  lemma LastingStep(items: seq<RolloutItem>, rest: seq<nat>, at: seq<nat>)
    requires items != [] && AreLasting(items[1..], rest)
    requires at == (if IsPassing(items[0]) then [] else [0]) + Shifted(rest)
    ensures AreLasting(items, at)
  {
    hide IsPassing;
    var moved := Shifted(rest);
    forall i | 0 <= i < |items| ensures i in at <==> !IsPassing(items[i]) {
      MovedIn(rest, moved, i);
      assert i in at <==> (i == 0 && !IsPassing(items[0])) || i in moved;
      assert i > 0 ==> items[1..][i - 1] == items[i];
    }
  }

  lemma MovedIn(rest: seq<nat>, moved: seq<nat>, i: nat)
    requires |moved| == |rest| && forall k :: 0 <= k < |rest| ==> moved[k] == rest[k] + 1
    ensures i in moved <==> i > 0 && i - 1 in rest
  {
    if i > 0 && i - 1 in rest {
      var k :| 0 <= k < |rest| && rest[k] == i - 1;
      assert moved[k] == i;
    }
  }

  lemma {:induction false} PersistedConcat(a: seq<RolloutItem>, b: seq<RolloutItem>)
    ensures PersistedItems(a + b) == PersistedItems(a) + PersistedItems(b)
  {
    if a == [] {
      assert a + b == b;
    } else {
      assert (a + b)[1..] == a[1..] + b;
      PersistedConcat(a[1..], b);
      Associative(if IsPersisted(a[0]) then [a[0]] else [], PersistedItems(a[1..]), PersistedItems(b));
    }
  }

  const NEWLINE: byte := 10
  const OPEN_BRACE: byte := 123
  const CLOSE_BRACE: byte := 125

  datatype Codec = Codec(encode: RolloutItem -> seq<byte>, decode: seq<byte> -> Option<RolloutItem>) {

    /** Records are one-line JSON objects: they parse back, and no part of one that
        misses its closing brace is an object. */
    ghost predicate Lawful() {
      && (forall x :: IsObjectLine(encode(x)) && decode(encode(x)) == Some(x))
      && (forall x, p :: p < encode(x) ==> decode(p) == None)
    }
  }

  predicate IsObjectLine(s: seq<byte>) {
    && |s| >= 2 && s[0] == OPEN_BRACE && s[|s| - 1] == CLOSE_BRACE
    && NEWLINE !in s
    && Valid(s)
  }

  function Line(codec: Codec, item: RolloutItem): seq<byte> {
    codec.encode(item) + [NEWLINE]
  }

  /** The file that appending items, in order, produces. */
  function Render(codec: Codec, items: seq<RolloutItem>): seq<byte> {
    if items == [] then [] else Line(codec, items[0]) + Render(codec, items[1..])
  }

  // ---------------------------------------------------------------- one segment

  /** Length of the segment at the front of text: up to and including its newline. */
  function SegmentLength(text: seq<byte>): (n: nat)
    requires text != []
    ensures 0 < n <= |text|
    ensures forall k :: 0 <= k < n - 1 ==> text[k] != NEWLINE
    ensures n < |text| ==> text[n - 1] == NEWLINE
  {
    if text[0] == NEWLINE || |text| == 1 then 1 else 1 + SegmentLength(text[1..])
  }

  /** `split_inclusive('\n')`. */
  function SplitInclusive(text: seq<byte>): (segments: seq<seq<byte>>)
    ensures Flatten(segments) == text
    ensures forall s :: s in segments ==> s != []
    decreases |text|
  {
    if text == [] then []
    else
      var n := SegmentLength(text);
      Rejoin(text, n);
      [text[..n]] + SplitInclusive(text[n..])
  }

  datatype ParsedLine = ParsedLine(item: RolloutItem, startOffset: nat)

  datatype ParseError = ParseError(lineNo: nat)

  type Lines = Result<seq<ParsedLine>, ParseError>

  function ParseLine(codec: Codec, lineNo: nat, line: seq<byte>, isFinalUnterminated: bool): Result<Option<RolloutItem>, ParseError> {
    var trimmed := Trim(line);
    if trimmed == [] then Ok(None)
    else match codec.decode(trimmed)
      case Some(item) => Ok(Some(item))
      case None => if isFinalUnterminated then Ok(None) else Err(ParseError(lineNo))
  }

  // ------------------------------------------------------------- the whole text

  function Prepend(front: seq<ParsedLine>, rest: Lines): Lines {
    match rest
    case Err(e) => Err(e)
    case Ok(lines) => Ok(front + lines)
  }

  /** What parsing one segment puts in front of the rest. */
  function ParsedSegment(codec: Codec, segment: seq<byte>, offset: nat, lineNo: nat): Lines
    requires segment != []
  {
    match ParseLine(codec, lineNo, segment, segment[|segment| - 1] != NEWLINE)
    case Err(e) => Err(e)
    case Ok(None) => Ok([])
    case Ok(Some(item)) => Ok([ParsedLine(item, offset)])
  }

  /** The lines of text, which starts at offset in the file with line number lineNo. */
  function ParseFrom(codec: Codec, text: seq<byte>, offset: nat, lineNo: nat): Lines
    decreases |text|
  {
    if text == [] then Ok([])
    else
      var n := SegmentLength(text);
      match ParsedSegment(codec, text[..n], offset, lineNo)
      case Err(e) => Err(e)
      case Ok(front) => Prepend(front, ParseFrom(codec, text[n..], offset + n, lineNo + 1))
  }

  function ParseText(codec: Codec, text: seq<byte>): Lines {
    ParseFrom(codec, text, 0, 1)
  }

  function Items(lines: seq<ParsedLine>): (items: seq<RolloutItem>)
    ensures |items| == |lines|
    ensures forall i :: 0 <= i < |lines| ==> items[i] == lines[i].item
  {
    seq(|lines|, i requires 0 <= i < |lines| => lines[i].item)
  }

  lemma SplitStep(text: seq<byte>)
    requires text != []
    ensures var n := SegmentLength(text);
            var segments := SplitInclusive(text);
            |segments| > 0 && segments[0] == text[..n] && segments[1..] == SplitInclusive(text[n..])
  {
  }

  lemma ParseStep(codec: Codec, text: seq<byte>, offset: nat, lineNo: nat)
    requires text != []
    ensures var n := SegmentLength(text);
            ParseFrom(codec, text, offset, lineNo) ==
            match ParsedSegment(codec, text[..n], offset, lineNo)
            case Err(e) => Err(e)
            case Ok(front) => Prepend(front, ParseFrom(codec, text[n..], offset + n, lineNo + 1))
  {
    hide ParsedSegment, SegmentLength;
  }

  /** A segment of the text from offset on, seen from the whole text. */
  lemma SegmentWithin(text: seq<byte>, offset: nat)
    requires offset < |text|
    ensures var n := SegmentLength(text[offset..]);
            && text[offset..][n..] == text[offset + n..]
            && text[offset..][..n][n - 1] == text[offset + n - 1]
            && (offset + n < |text| ==> text[offset + n - 1] == NEWLINE)
  {
    hide SegmentLength;
  }

  /** `parse_lines_with_offsets`. Its last statement, for text left over after the
      loop, can never run: the assertion after the loop says that nothing is left. */
  method ParseLinesWithOffsets(codec: Codec, text: seq<byte>) returns (r: Lines)
    ensures r == ParseText(codec, text)
  {
    hide ParseLine, ParseFrom, SplitInclusive, SegmentLength;
    var lines: seq<ParsedLine> := [];
    var offset, lineNo := 0, 0;
    var finalLineMayBeTruncated := text != [] && text[|text| - 1] != NEWLINE;
    var segments := SplitInclusive(text);
    assert text[0..] == text && segments[0..] == segments;
    EmptyFront(ParseText(codec, text));
    for i := 0 to |segments|
      invariant offset <= |text| && segments[i..] == SplitInclusive(text[offset..])
      invariant lineNo == i
      invariant ParseText(codec, text) == Prepend(lines, ParseFrom(codec, text[offset..], offset, lineNo + 1))
    {
      var segment := segments[i];
      SplitNonEmpty(text[offset..]);
      SplitStep(text[offset..]);
      ParseStep(codec, text[offset..], offset, lineNo + 1);
      SegmentWithin(text, offset);
      assert segments[i..][0] == segment && segments[i..][1..] == segments[i + 1..];
      lineNo := lineNo + 1;
      var lineStartOffset := offset;
      offset := offset + |segment|;
      var isFinalUnterminated := finalLineMayBeTruncated && offset == |text|;
      var parsed := ParseLine(codec, lineNo, segment, isFinalUnterminated);
      ghost var ahead := ParseFrom(codec, text[offset..], offset, lineNo + 1);
      if parsed.Err? {
        return Err(parsed.error);
      }
      if parsed.value.Some? {
        PrependTwice(lines, [ParsedLine(parsed.value.value, lineStartOffset)], ahead);
        lines := lines + [ParsedLine(parsed.value.value, lineStartOffset)];
      } else {
        PrependTwice(lines, [], ahead);
      }
    }
    SplitNonEmpty(text[offset..]);
    assert offset == |text|;
    assert ParseFrom(codec, [], offset, lineNo + 1) == Ok([]) by { NothingToParse(codec, offset, lineNo + 1); }
    assert lines + [] == lines;
    return Ok(lines);
  }

  lemma SplitNonEmpty(text: seq<byte>)
    ensures SplitInclusive(text) == [] <==> text == []
  {
  }

  lemma NothingToParse(codec: Codec, offset: nat, lineNo: nat)
    ensures ParseFrom(codec, [], offset, lineNo) == Ok([])
  {
  }

  lemma EmptyFront(r: Lines)
    ensures Prepend([], r) == r
  {
    if r.Ok? { assert [] + r.value == r.value; }
  }

  lemma PrependTwice(a: seq<ParsedLine>, b: seq<ParsedLine>, r: Lines)
    ensures Prepend(a, Prepend(b, r)) == Prepend(a + b, r)
    ensures b == [] ==> Prepend(a, Prepend(b, r)) == Prepend(a, r)
  {
    if r.Ok? { Associative(a, b, r.value); }
    if b == [] { EmptyFront(r); }
  }

  /** `parse_items`. */
  method ParseItems(codec: Codec, text: seq<byte>) returns (r: Result<seq<RolloutItem>, ParseError>)
    ensures r == match ParseText(codec, text) case Err(e) => Err(e) case Ok(lines) => Ok(Items(lines))
  {
    var lines := ParseLinesWithOffsets(codec, text);
    match lines
    case Err(e) => return Err(e);
    case Ok(ls) => return Ok(Items(ls));
  }

  // -------------------------------------------------- what the parsed lines are

  predicate AtLineStart(text: seq<byte>, i: nat) {
    i <= |text| && (i == 0 || text[i - 1] == NEWLINE)
  }

  /** text[i..j] is a line with its newline, or the unterminated last line. */
  predicate IsLine(text: seq<byte>, i: nat, j: nat) {
    && AtLineStart(text, i) && i < j <= |text|
    && (forall k :: i <= k < j - 1 ==> text[k] != NEWLINE)
    && (text[j - 1] == NEWLINE || j == |text|)
  }

  /** A terminated line that is neither blank nor a record. */
  predicate IsMalformed(codec: Codec, line: seq<byte>) {
    line != [] && line[|line| - 1] == NEWLINE && Trim(line) != [] && codec.decode(Trim(line)) == None
  }

  ghost predicate HasMalformed(codec: Codec, text: seq<byte>) {
    exists i: nat, j: nat :: IsLine(text, i, j) && IsMalformed(codec, text[i..j])
  }

  /** The lines of text after its first segment are the lines of what follows it. */
  lemma LineShift(text: seq<byte>, n: nat, i: nat, j: nat)
    requires 0 < n <= |text| && text[n - 1] == NEWLINE
    ensures IsLine(text[n..], i, j) <==> IsLine(text, n + i, n + j)
    ensures IsLine(text[n..], i, j) ==> text[n..][i..j] == text[n + i..n + j]
  {
    var t := text[n..];
    assert forall k :: n <= k < |text| ==> t[k - n] == text[k];
    assert forall k :: 0 <= k < |t| ==> t[k] == text[k + n];
  }

  lemma FirstLineIs(text: seq<byte>, i: nat, j: nat)
    requires text != [] && IsLine(text, i, j)
    ensures i == 0 ==> j == SegmentLength(text)
    ensures i == 0 || i >= SegmentLength(text)
  {
    var n := SegmentLength(text);
  }

  lemma FirstIsLine(text: seq<byte>)
    requires text != []
    ensures IsLine(text, 0, SegmentLength(text)) && text[0..SegmentLength(text)] == text[..SegmentLength(text)]
    ensures text[SegmentLength(text) - 1] == NEWLINE || SegmentLength(text) == |text|
  {
  }

  lemma MalformedWitness(codec: Codec, text: seq<byte>, i: nat, j: nat)
    requires IsLine(text, i, j) && IsMalformed(codec, text[i..j])
    ensures HasMalformed(codec, text)
  {
  }

  lemma MalformedIs(codec: Codec, text: seq<byte>) returns (i: nat, j: nat)
    requires HasMalformed(codec, text)
    ensures i < j <= |text| && IsLine(text, i, j) && IsMalformed(codec, text[i..j])
  {
    i, j :| IsLine(text, i, j) && IsMalformed(codec, text[i..j]);
  }

  lemma MalformedHere(codec: Codec, text: seq<byte>)
    requires text != [] && HasMalformed(codec, text)
    ensures var n := SegmentLength(text);
            IsMalformed(codec, text[..n]) || HasMalformed(codec, text[n..])
  {
    hide IsMalformed, SegmentLength, IsLine, HasMalformed;
    var n := SegmentLength(text);
    var i, j := MalformedIs(codec, text);
    FirstIsLine(text);
    FirstLineIs(text, i, j);
    if i == 0 {
      assert text[0..n] == text[..n];
    } else {
      if n < |text| {
        LineShift(text, n, i - n, j - n);
        MalformedWitness(codec, text[n..], i - n, j - n);
      }
    }
  }

  lemma MalformedThere(codec: Codec, text: seq<byte>)
    requires text != []
    requires var n := SegmentLength(text); IsMalformed(codec, text[..n]) || HasMalformed(codec, text[n..])
    ensures HasMalformed(codec, text)
  {
    hide IsMalformed, SegmentLength, IsLine, HasMalformed;
    var n := SegmentLength(text);
    FirstIsLine(text);
    if IsMalformed(codec, text[..n]) {
      MalformedWitness(codec, text, 0, n);
    } else {
      var i, j := MalformedIs(codec, text[n..]);
      LineShift(text, n, i, j);
      MalformedWitness(codec, text, n + i, n + j);
    }
  }

  lemma HasMalformedStep(codec: Codec, text: seq<byte>)
    requires text != []
    ensures var n := SegmentLength(text);
            HasMalformed(codec, text) <==> IsMalformed(codec, text[..n]) || HasMalformed(codec, text[n..])
  {
    hide IsMalformed, SegmentLength, HasMalformed;
    var n := SegmentLength(text);
    if HasMalformed(codec, text) {
      MalformedHere(codec, text);
    }
    if IsMalformed(codec, text[..n]) || HasMalformed(codec, text[n..]) {
      MalformedThere(codec, text);
    }
  }

  /** Parsing fails exactly when some terminated line is malformed: a torn tail never
      makes it fail, a bad line before the tail always does. */
  lemma {:induction false} FailsIffMalformed(codec: Codec, text: seq<byte>, offset: nat, lineNo: nat)
    ensures ParseFrom(codec, text, offset, lineNo).Err? <==> HasMalformed(codec, text)
    decreases |text|
  {
    hide Trim;
    if text != [] {
      var n := SegmentLength(text);
      FailsIffMalformed(codec, text[n..], offset + n, lineNo + 1);
      HasMalformedStep(codec, text);
    }
  }

  /** No line that starts before i is malformed. */
  ghost predicate NoneBefore(codec: Codec, text: seq<byte>, i: nat) {
    forall a: nat, b: nat :: IsLine(text, a, b) && a < i ==> !IsMalformed(codec, text[a..b])
  }

  /** What parsing reports is the first malformed line, by its number in the file. */
  lemma {:induction false} ReportsFirstMalformed(codec: Codec, text: seq<byte>, offset: nat, lineNo: nat) returns (i: nat, j: nat)
    requires ParseFrom(codec, text, offset, lineNo).Err?
    ensures i < j <= |text| && IsLine(text, i, j) && IsMalformed(codec, text[i..j])
    ensures NoneBefore(codec, text, i)
    ensures ParseFrom(codec, text, offset, lineNo).error.lineNo == lineNo + multiset(text[..i])[NEWLINE]
    decreases |text|
  {
    hide Trim, SegmentLength, IsMalformed, ParseFrom;
    i, j := 0, 0;
    if text == [] {
      NothingToParse(codec, offset, lineNo);
    } else {
      var n := SegmentLength(text);
      FirstIsLine(text);
      ParseStep(codec, text, offset, lineNo);
      SegmentFails(codec, text[..n], offset, lineNo);
      if ParsedSegment(codec, text[..n], offset, lineNo).Err? {
        j := n;
        assert text[..0] == [];
      } else {
        i, j := ReportsFirstMalformed(codec, text[n..], offset + n, lineNo + 1);
        NotBefore(codec, text, i);
        LineShift(text, n, i, j);
        CountAcross(text, n, i);
        i, j := n + i, n + j;
      }
    }
  }

  lemma SegmentFails(codec: Codec, segment: seq<byte>, offset: nat, lineNo: nat)
    requires segment != []
    ensures ParsedSegment(codec, segment, offset, lineNo) == Err(ParseError(lineNo)) <==> IsMalformed(codec, segment)
    ensures ParsedSegment(codec, segment, offset, lineNo).Err? <==> IsMalformed(codec, segment)
  {
    hide Trim;
  }

  /** No malformed line before i in what follows a good first segment: none before it in
      the whole. */
  lemma NotBefore(codec: Codec, text: seq<byte>, i: nat)
    requires text != []
    requires var n := SegmentLength(text);
             && n < |text| && i <= |text[n..]| && !IsMalformed(codec, text[..n])
             && NoneBefore(codec, text[n..], i)
    ensures NoneBefore(codec, text, SegmentLength(text) + i)
  {
    hide SegmentLength, IsMalformed;
    var n := SegmentLength(text);
    FirstIsLine(text);
    forall a: nat, b: nat | IsLine(text, a, b) && a < n + i ensures !IsMalformed(codec, text[a..b]) {
      FirstLineIs(text, a, b);
      if a == 0 {
        assert text[0..n] == text[..n];
      } else {
        LineShift(text, n, a - n, b - n);
      }
    }
  }

  lemma CountAcross(text: seq<byte>, n: nat, i: nat)
    requires text != [] && n == SegmentLength(text) < |text| && i <= |text[n..]|
    ensures multiset(text[..n + i])[NEWLINE] == 1 + multiset(text[n..][..i])[NEWLINE]
  {
    hide SegmentLength;
    var line := text[..n - 1];
    assert text[..n] == line + [NEWLINE];
    assert NEWLINE !in line;
    assert text[..n + i] == line + [NEWLINE] + text[n..][..i];
  }
}
