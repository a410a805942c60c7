/**
 The incremental server-sent-events decoder: bytes arrive in arbitrary chunks,
 text is cut at blank lines. The framing is the part of section 9.2.5 of the
 WHATWG HTML Standard in which an event ends at LF LF or CR LF CR LF.
 */
module SseDecoder {
  import opened Wrappers
  import opened Sequences
  import opened Utf8
  import opened Text

  const LF_LF: seq<byte> := [10, 10]
  const CRLF_CRLF: seq<byte> := [13, 10, 13, 10]

  // ---------------------------------------------------------------- delimiters

  datatype Delimiter = Delimiter(pos: nat, len: nat)

  /** Length of the blank line that starts at i, or 0 when none does. */
  function DelimiterAt(s: seq<byte>, i: nat): (n: nat)
    ensures n == 0 || i + n <= |s|
  {
    if i + 4 <= |s| && s[i] == 13 && s[i + 1] == 10 && s[i + 2] == 13 && s[i + 3] == 10 then 4
    else if i + 2 <= |s| && s[i] == 10 && s[i + 1] == 10 then 2
    else 0
  }

  lemma DelimiterOccurs(s: seq<byte>, i: nat)
    ensures DelimiterAt(s, i) == 4 <==> OccursAt(s, CRLF_CRLF, i)
    ensures DelimiterAt(s, i) == 2 <==> OccursAt(s, LF_LF, i)
  {
    if i + 4 <= |s| {
      var w := s[i..i + 4];
      assert w[0] == s[i] && w[1] == s[i + 1] && w[2] == s[i + 2] && w[3] == s[i + 3];
    }
    if i + 2 <= |s| {
      var w := s[i..i + 2];
      assert w[0] == s[i] && w[1] == s[i + 1];
    }
  }

  /** The blank line that starts first, scanning from i. */
  function FirstDelimiter(s: seq<byte>, i: nat): (r: Option<Delimiter>)
    requires i <= |s|
    ensures r.Some? ==> i <= r.value.pos && r.value.pos + r.value.len <= |s| && 2 <= r.value.len == DelimiterAt(s, r.value.pos)
    ensures r.Some? ==> forall j :: i <= j < r.value.pos ==> DelimiterAt(s, j) == 0
    ensures r.None? ==> forall j :: i <= j <= |s| ==> DelimiterAt(s, j) == 0
    decreases |s| - i
  {
    if DelimiterAt(s, i) > 0 then Some(Delimiter(i, DelimiterAt(s, i)))
    else if i == |s| then None
    else FirstDelimiter(s, i + 1)
  }

  /** `find_sse_delimiter`: two searches, the smaller position wins. */
  method FindSseDelimiter(buffer: seq<byte>) returns (best: Option<Delimiter>)
    ensures best == FirstDelimiter(buffer, 0)
  {
    best := None;
    var candidates := [CRLF_CRLF, LF_LF];
    for c := 0 to 2
      invariant c == 0 ==> best == None
      invariant c == 1 ==> best == match Find(buffer, CRLF_CRLF) case None => None case Some(p) => Some(Delimiter(p, 4))
      invariant c == 2 ==> best == Sooner(Find(buffer, CRLF_CRLF), Find(buffer, LF_LF))
    {
      var found := Find(buffer, candidates[c]);
      if found.Some? && (best.None? || found.value < best.value.pos) {
        best := Some(Delimiter(found.value, |candidates[c]|));
      }
    }
    SoonerIsFirst(buffer);
  }

  /** The earlier of the two first occurrences. */
  function Sooner(crlf: Option<nat>, lf: Option<nat>): Option<Delimiter> {
    if lf.Some? && (crlf.None? || lf.value < crlf.value) then Some(Delimiter(lf.value, 2))
    else if crlf.Some? then Some(Delimiter(crlf.value, 4))
    else None
  }

  lemma SoonerIsFirst(s: seq<byte>)
    ensures Sooner(Find(s, CRLF_CRLF), Find(s, LF_LF)) == FirstDelimiter(s, 0)
  {
    forall j | 0 <= j <= |s|
      ensures DelimiterAt(s, j) == 4 <==> OccursAt(s, CRLF_CRLF, j)
      ensures DelimiterAt(s, j) == 2 <==> OccursAt(s, LF_LF, j)
    {
      DelimiterOccurs(s, j);
    }
    FirstDelimiterIs(s, Sooner(Find(s, CRLF_CRLF), Find(s, LF_LF)));
  }

  lemma FirstDelimiterIs(s: seq<byte>, r: Option<Delimiter>)
    requires r.None? ==> forall j :: 0 <= j <= |s| ==> DelimiterAt(s, j) == 0
    requires r.Some? ==> r.value.pos <= |s| && 0 < r.value.len == DelimiterAt(s, r.value.pos)
    requires r.Some? ==> forall j :: 0 <= j < r.value.pos ==> DelimiterAt(s, j) == 0
    ensures r == FirstDelimiter(s, 0)
  {
  }

  /** More text cannot move the first blank line: a delimiter that starts earlier
      also ends earlier, so it would have been complete already. */
  lemma FirstDelimiterStable(a: seq<byte>, b: seq<byte>)
    requires FirstDelimiter(a, 0).Some?
    ensures FirstDelimiter(a + b, 0) == FirstDelimiter(a, 0)
  {
    var d := FirstDelimiter(a, 0).value;
    forall j | 0 <= j <= d.pos ensures DelimiterAt(a + b, j) == DelimiterAt(a, j) {
      assert forall k :: 0 <= k < |a| ==> (a + b)[k] == a[k];
    }
    FirstDelimiterIs(a + b, Some(d));
  }

  // -------------------------------------------------------------------- cutting

  datatype Block = Block(text: seq<byte>, delimiter: seq<byte>)

  datatype Cuts = Cuts(blocks: seq<Block>, rest: seq<byte>)

  /** The text of a block, up to its own first blank line. */
  ghost predicate IsBlock(b: Block) {
    FirstDelimiter(b.text + b.delimiter, 0) == Some(Delimiter(|b.text|, |b.delimiter|))
  }

  /** Cut off everything up to a blank line for as long as there is one. */
  function Cut(s: seq<byte>): Cuts
    decreases |s|
  {
    match FirstDelimiter(s, 0)
    case None => Cuts([], s)
    case Some(d) =>
      var more := Cut(s[d.pos + d.len..]);
      Cuts([Block(s[..d.pos], s[d.pos..d.pos + d.len])] + more.blocks, more.rest)
  }

  /** Blocks that are blank after trimming are not events. */
  function Frames(blocks: seq<Block>): seq<seq<byte>> {
    if blocks == [] then []
    else
      var frame := Trim(blocks[0].text);
      (if frame == [] then [] else [frame]) + Frames(blocks[1..])
  }

  /** One turn of the cutting loop. */
  lemma CutFirst(s: seq<byte>)
    requires FirstDelimiter(s, 0).Some?
    ensures var d := FirstDelimiter(s, 0).value;
            var frame := Trim(s[..d.pos]);
            var more := Cut(s[d.pos + d.len..]);
            && Cut(s).rest == more.rest
            && Frames(Cut(s).blocks) == (if frame == [] then [] else [frame]) + Frames(more.blocks)
  {
    var d := FirstDelimiter(s, 0).value;
    assert Cut(s).blocks[1..] == Cut(s[d.pos + d.len..]).blocks;
  }

  lemma CutNothing(s: seq<byte>)
    requires FirstDelimiter(s, 0).None?
    ensures Cut(s) == Cuts([], s) && Frames(Cut(s).blocks) == []
  {
  }

  lemma {:induction false} FramesConcat(a: seq<Block>, b: seq<Block>)
    ensures Frames(a + b) == Frames(a) + Frames(b)
  {
    hide Trim;
    if a == [] {
      assert a + b == b;
    } else {
      FramesConcat(a[1..], b);
      assert (a + b)[1..] == a[1..] + b;
      var frame := Trim(a[0].text);
      Associative(if frame == [] then [] else [frame], Frames(a[1..]), Frames(b));
    }
  }

  /** A block gives its trimmed text, or nothing when it is white space throughout; with
      FramesConcat this says what any list of blocks gives. */
  lemma OneFrame(b: Block)
    ensures Frames([]) == []
    ensures Frames([b]) == if AllSpace(b.text) then [] else [Trim(b.text)]
  {
    TrimmedAway(b.text);
    assert [b][1..] == [];
  }

  /** The first step of cutting, for text known to start with a block. */
  lemma CutStep(b: Block, t: seq<byte>)
    requires IsBlock(b)
    ensures Cut(b.text + b.delimiter + t) == Cuts([b] + Cut(t).blocks, Cut(t).rest)
  {
    var front := b.text + b.delimiter;
    FirstDelimiterStable(front, t);
    var s := front + t;
    var n := |front|;
    assert s[n..] == t;
    assert s[..|b.text|] == b.text;
    assert s[|b.text|..n] == b.delimiter;
  }

  lemma FirstDelimiterOfPrefix(s: seq<byte>, n: nat)
    requires FirstDelimiter(s, 0).Some? && n <= |s|
    requires var d := FirstDelimiter(s, 0).value; n == d.pos + d.len
    ensures FirstDelimiter(s[..n], 0) == FirstDelimiter(s, 0)
  {
    var d := FirstDelimiter(s, 0).value;
    var front := s[..n];
    assert forall k :: 0 <= k < n ==> front[k] == s[k];
    forall j | 0 <= j < d.pos ensures DelimiterAt(front, j) == 0 {
      assert DelimiterAt(s, j) == 0;
    }
    FirstDelimiterIs(front, Some(d));
  }

  /** Text with a blank line in it starts with a block. */
  lemma FirstBlock(s: seq<byte>) returns (b: Block, t: seq<byte>)
    requires FirstDelimiter(s, 0).Some?
    ensures IsBlock(b) && s == b.text + b.delimiter + t && |t| < |s|
  {
    hide FirstDelimiter;
    var d := FirstDelimiter(s, 0).value;
    var n := d.pos + d.len;
    b := Block(s[..d.pos], s[d.pos..n]);
    t := s[n..];
    FirstDelimiterOfPrefix(s, n);
    assert s[..n] == b.text + b.delimiter;
    assert s == s[..n] + t;
  }

  /** Cutting may stop after any prefix and go on from what was left over. */
  lemma {:induction false} CutConcat(a: seq<byte>, b: seq<byte>)
    ensures var c := Cut(a);
            var e := Cut(c.rest + b);
            Cut(a + b) == Cuts(c.blocks + e.blocks, e.rest)
    decreases |a|
  {
    if FirstDelimiter(a, 0).None? {
      assert [] + Cut(a + b).blocks == Cut(a + b).blocks;
    } else {
      var first, t := FirstBlock(a);
      CutConcat(t, b);
      CutStep(first, t);
      CutStep(first, t + b);
      Associative(first.text + first.delimiter, t, b);
      Associative([first], Cut(t).blocks, Cut(Cut(t).rest + b).blocks);
    }
  }

  // ------------------------------------------------------- what the cuts mean

  /** The text the blocks were cut from. */
  function Joined(blocks: seq<Block>): seq<byte> {
    if blocks == [] then [] else blocks[0].text + blocks[0].delimiter + Joined(blocks[1..])
  }

  /** Each block ends at its own first blank line, and none is left at the end. */
  ghost predicate IsCutting(c: Cuts, s: seq<byte>) {
    && s == Joined(c.blocks) + c.rest
    && FirstDelimiter(c.rest, 0).None?
    && forall b :: b in c.blocks ==> IsBlock(b)
  }

  /** No byte of the text is lost, none is invented. */
  lemma {:induction false} CutAccounts(s: seq<byte>)
    ensures IsCutting(Cut(s), s)
    decreases |s|
  {
    if FirstDelimiter(s, 0).None? {
      assert [] + s == s;
    } else {
      var b, t := FirstBlock(s);
      CutStep(b, t);
      CutAccounts(t);
      var more := Cut(t);
      assert Cut(s).blocks[1..] == more.blocks;
      Associative(b.text + b.delimiter, Joined(more.blocks), more.rest);
    }
  }

  /** ... and there is only one such cutting: no other choice of blank lines fits. */
  lemma {:induction false} CuttingIsUnique(c: Cuts, s: seq<byte>)
    requires IsCutting(c, s)
    ensures c == Cut(s)
    decreases |c.blocks|
  {
    hide Cut, IsBlock, FirstDelimiter;
    if c.blocks == [] {
      assert s == c.rest;
      CutNothing(s);
    } else {
      var b := c.blocks[0];
      var tail := Cuts(c.blocks[1..], c.rest);
      var t := Joined(tail.blocks) + tail.rest;
      assert s == b.text + b.delimiter + t;
      CutStep(b, t);
      CuttingIsUnique(tail, t);
      assert c.blocks == [b] + tail.blocks;
    }
  }

  lemma SplitAround(a: seq<byte>, d: seq<byte>, t: seq<byte>)
    requires |d| > 0 && d[0] <= 0x7F && d[|d| - 1] <= 0x7F && Valid(a + d + t)
    ensures Valid(a) && Valid(t)
  {
    hide Valid;
    var first, more := [d[0]], d[1..];
    assert d == first + more;
    Associative(a, first, more);
    Associative(a + first, more, t);
    ValidSplitAtAscii(a, d[0], more + t);
    var less, last := d[..|d| - 1], [d[|d| - 1]];
    assert d == less + last;
    Associative(a, less, last);
    ValidSplitAtAscii(a + less, d[|d| - 1], t);
  }

  /** Cutting before and after the ASCII bytes of a delimiter splits no character. */
  lemma BlockKeepsValid(b: Block, t: seq<byte>)
    requires IsBlock(b) && Valid(b.text + b.delimiter + t)
    ensures Valid(b.text) && Valid(t)
  {
    DelimiterBytes(b);
    SplitAround(b.text, b.delimiter, t);
  }

  /** Every block is text between two cuts, so a well-formed string stays one. */
  lemma {:induction false} CutKeepsValid(s: seq<byte>)
    requires Valid(s)
    ensures Valid(Cut(s).rest)
    ensures forall b :: b in Cut(s).blocks ==> Valid(b.text)
    decreases |s|
  {
    if FirstDelimiter(s, 0).Some? {
      var b, t := FirstBlock(s);
      CutStep(b, t);
      BlockKeepsValid(b, t);
      CutKeepsValid(t);
    }
  }

  lemma DelimiterBytes(b: Block)
    requires IsBlock(b)
    ensures b.delimiter == LF_LF || b.delimiter == CRLF_CRLF
  {
    var s := b.text + b.delimiter;
    var i := |b.text|;
    DelimiterOccurs(s, i);
    assert s[i..i + |b.delimiter|] == b.delimiter;
  }

  /** No blank line, LF LF or CR LF CR LF, starts at j. */
  predicate NoBlankLineAt(s: seq<byte>, j: nat) {
    !OccursAt(s, [10, 10], j) && !OccursAt(s, [13, 10, 13, 10], j)
  }

  lemma NoDelimiterAt(s: seq<byte>, j: nat)
    requires j <= |s| ==> DelimiterAt(s, j) == 0
    ensures NoBlankLineAt(s, j)
  {
    if j <= |s| {
      DelimiterOccurs(s, j);
    }
  }

  /** Every cut is at a blank line, LF LF or CR LF CR LF, and none starts earlier in its
      block or anywhere in what is left. */
  lemma CutsAtBlankLines(s: seq<byte>)
    ensures forall b :: b in Cut(s).blocks ==>
              && (b.delimiter == [10, 10] || b.delimiter == [13, 10, 13, 10])
              && forall j :: 0 <= j < |b.text| ==> NoBlankLineAt(b.text + b.delimiter, j)
    ensures forall j: nat :: NoBlankLineAt(Cut(s).rest, j)
  {
    hide Cut, FirstDelimiter, NoBlankLineAt, DelimiterAt;
    CutAccounts(s);
    forall b | b in Cut(s).blocks
      ensures b.delimiter == [10, 10] || b.delimiter == [13, 10, 13, 10]
      ensures forall j :: 0 <= j < |b.text| ==> NoBlankLineAt(b.text + b.delimiter, j)
    {
      DelimiterBytes(b);
      forall j | 0 <= j < |b.text| ensures NoBlankLineAt(b.text + b.delimiter, j) {
        NoDelimiterAt(b.text + b.delimiter, j);
      }
    }
    forall j: nat ensures NoBlankLineAt(Cut(s).rest, j) {
      NoDelimiterAt(Cut(s).rest, j);
    }
  }

  // ---------------------------------------------------------------- the decoder

  /** What the decoder remembers between chunks. */
  datatype State = State(buffer: seq<byte>, remainder: seq<byte>)

  datatype Pushed = Pushed(frames: seq<seq<byte>>, state: State)

  const START := State([], [])

  /** One chunk: decode it behind the waiting bytes, cut behind the waiting text. */
  function Push(st: State, chunk: seq<byte>): Pushed {
    var d := Decode(st.remainder + chunk);
    var c := Cut(st.buffer + d.text);
    Pushed(Frames(c.blocks), State(c.rest, d.rest))
  }

  /** Successive chunks; the frames of all of them in order. */
  function Run(st: State, chunks: seq<seq<byte>>): Pushed
    decreases |chunks|
  {
    if chunks == [] then Pushed([], st)
    else
      var p := Push(st, chunks[0]);
      var q := Run(p.state, chunks[1..]);
      Pushed(p.frames + q.frames, q.state)
  }

  /** The reference: the whole stream decoded and cut at once. */
  function Whole(stream: seq<byte>): Pushed {
    Push(START, stream)
  }

  lemma PushAfterWhole(a: seq<byte>, chunk: seq<byte>)
    ensures var p := Push(Whole(a).state, chunk);
            Whole(a + chunk) == Pushed(Whole(a).frames + p.frames, p.state)
  {
    var d := Decode(a);
    var e := Decode(d.rest + chunk);
    assert START.remainder + a == a && START.remainder + (a + chunk) == a + chunk;
    DecodeConcat(a, chunk);
    assert START.buffer + d.text == d.text && START.buffer + (d.text + e.text) == d.text + e.text;
    CutConcat(d.text, e.text);
    FramesConcat(Cut(d.text).blocks, Cut(Cut(d.text).rest + e.text).blocks);
  }

  lemma {:induction false} RunAfterWhole(a: seq<byte>, chunks: seq<seq<byte>>)
    ensures var r := Run(Whole(a).state, chunks);
            Whole(a + Flatten(chunks)) == Pushed(Whole(a).frames + r.frames, r.state)
    decreases |chunks|
  {
    if chunks == [] {
      assert a + Flatten(chunks) == a;
    } else {
      PushAfterWhole(a, chunks[0]);
      RunAfterWhole(a + chunks[0], chunks[1..]);
      Associative(a, chunks[0], Flatten(chunks[1..]));
      var p := Push(Whole(a).state, chunks[0]);
      Associative(Whole(a).frames, p.frames, Run(p.state, chunks[1..]).frames);
    }
  }

  /** Feeding a stream in pieces gives what feeding it whole gives. */
  lemma RunIsWhole(chunks: seq<seq<byte>>)
    ensures Run(START, chunks) == Whole(Flatten(chunks))
  {
    assert Whole([]) == Pushed([], START);
    RunAfterWhole([], chunks);
    assert [] + Flatten(chunks) == Flatten(chunks);
    assert [] + Run(START, chunks).frames == Run(START, chunks).frames;
  }

  /** Chunk independence: frames, leftover text and leftover bytes depend on the
      stream alone, never on where it was split. */
  lemma ChunkIndependence(chunks: seq<seq<byte>>, others: seq<seq<byte>>)
    requires Flatten(chunks) == Flatten(others)
    ensures Run(START, chunks) == Run(START, others)
  {
    RunIsWhole(chunks);
    RunIsWhole(others);
  }

  /** Between chunks: the buffer is a string without a blank line, the remainder an
      incomplete character of at most three bytes. */
  ghost predicate Resting(st: State) {
    && Valid(st.buffer)
    && FirstDelimiter(st.buffer, 0).None?
    && |st.remainder| <= 3
    && Decode(st.remainder) == Decoded([], st.remainder)
  }

  lemma PushKeepsResting(st: State, chunk: seq<byte>)
    requires Resting(st)
    ensures Resting(Push(st, chunk).state)
  {
    var d := Decode(st.remainder + chunk);
    RestIsIncomplete(st.remainder + chunk);
    DecodedTextIsValid(st.remainder + chunk);
    ValidConcat(st.buffer, d.text);
    CutKeepsValid(st.buffer + d.text);
    CutAccounts(st.buffer + d.text);
  }

  /** Frames come from blocks in order, each with its outer white space removed and
      blank ones left out; block, delimiter and leftover bytes make up the lossy
      decoding of the whole stream. */
  lemma StreamAccounting(chunks: seq<seq<byte>>) returns (c: Cuts)
    ensures IsCutting(c, Decode(Flatten(chunks)).text)
    ensures Run(START, chunks) == Pushed(Frames(c.blocks), State(c.rest, Decode(Flatten(chunks)).rest))
    ensures ReplaceMaximalSubparts(Flatten(chunks))
         == Joined(c.blocks) + c.rest + ReplaceMaximalSubparts(Run(START, chunks).state.remainder)
  {
    hide Run, Cut, Frames, Decode, Flatten, IsCutting, ReplaceMaximalSubparts;
    var stream := Flatten(chunks);
    RunIsWhole(chunks);
    assert START.remainder + stream == stream;
    var d := Decode(stream);
    assert START.buffer + d.text == d.text;
    c := Cut(d.text);
    CutAccounts(d.text);
    LossyIsMaximalSubpartSubstitution(stream);
    LossyIsMaximalSubpartSubstitution(d.rest);
    RestIsIncomplete(stream);
  }

  /** Text committed so far followed by the decoding of what is still to come is the
      decoding of the whole stream, whatever comes. */
  lemma CommittedTextIsFinal(past: seq<byte>, future: seq<byte>)
    ensures ReplaceMaximalSubparts(past + future)
         == Decode(past).text + ReplaceMaximalSubparts(Decode(past).rest + future)
  {
    DecodeConcat(past, future);
    LossyIsMaximalSubpartSubstitution(past + future);
    var d := Decode(past);
    LossyIsMaximalSubpartSubstitution(d.rest + future);
    var e := Decode(d.rest + future);
    Associative(d.text, e.text, if e.rest == [] then [] else REPLACEMENT);
  }

  /** done is what decoding the first pos bytes of input has produced. */
  ghost predicate Committed(input: seq<byte>, pos: nat, done: seq<byte>) {
    pos <= |input| && var d := Decode(input[pos..]); Decode(input) == Decoded(done + d.text, d.rest)
  }

  lemma CommitNothing(input: seq<byte>)
    ensures Committed(input, 0, [])
  {
    assert input[0..] == input && [] + Decode(input).text == Decode(input).text;
  }

  lemma CommitResume(input: seq<byte>, pos: nat, done: seq<byte>, v: nat, l: Option<nat>)
    requires Committed(input, pos, done) && pos + v <= |input| && (l.Some? ==> pos + v + l.value <= |input|)
    requires ErrorExplains(input[pos..], v, l)
    ensures var r := Resume(input, pos + v, l);
            Decode(input) == Decoded((done + input[pos..pos + v]) + r.text, r.rest)
  {
    ResumeShift(input, pos, v, l);
    assert input[pos..][..v] == input[pos..pos + v];
    Associative(done, input[pos..pos + v], Resume(input, pos + v, l).text);
  }

  lemma CommitFine(input: seq<byte>, pos: nat, done: seq<byte>)
    requires Committed(input, pos, done) && FromUtf8(input[pos..]).Fine?
    ensures Decode(input) == Decoded(done + input[pos..], [])
  {
    FromUtf8Fine(input[pos..]);
    DecodeOfValid(input[pos..]);
  }

  lemma CommitIncomplete(input: seq<byte>, pos: nat, done: seq<byte>, v: nat)
    requires Committed(input, pos, done) && FromUtf8(input[pos..]) == Error(v, None)
    ensures Decode(input) == Decoded(done + input[pos..pos + v], input[pos + v..])
  {
    FromUtf8Error(input[pos..]);
    CommitResume(input, pos, done, v, None);
    var front := done + input[pos..pos + v];
    assert front + [] == front;
  }

  lemma CommitInvalid(input: seq<byte>, pos: nat, done: seq<byte>, v: nat, n: nat)
    requires Committed(input, pos, done) && FromUtf8(input[pos..]) == Error(v, Some(n))
    ensures Committed(input, pos + v + n, done + input[pos..pos + v] + REPLACEMENT)
  {
    FromUtf8Error(input[pos..]);
    CommitResume(input, pos, done, v, Some(n));
    Associative(done + input[pos..pos + v], REPLACEMENT, Decode(input[pos + v + n..]).text);
  }

  class SseFrameDecoder {
    var buffer: seq<byte>
    var utf8Remainder: seq<byte>

    ghost function Abstract(): State
      reads this
    {
      State(buffer, utf8Remainder)
    }

    ghost predicate IsResting()
      reads this
    {
      Resting(Abstract())
    }

    constructor ()
      ensures Abstract() == START && IsResting()
    {
      buffer := [];
      utf8Remainder := [];
    }

    /** `append_utf8_safe`, including the branch for a remainder no decoding leaves. */
    method AppendUtf8Safe(newBytes: seq<byte>)
      modifies this
      ensures |old(utf8Remainder)| <= 3 ==>
                var d := Decode(old(utf8Remainder) + newBytes);
                buffer == old(buffer) + d.text && utf8Remainder == d.rest
      ensures |old(utf8Remainder)| > 3 ==>
                var d := Decode(newBytes);
                buffer == old(buffer) + ReplaceMaximalSubparts(old(utf8Remainder)) + d.text && utf8Remainder == d.rest
    {
      if utf8Remainder == [] {
        assert utf8Remainder + newBytes == newBytes;
        AppendInput(newBytes);
      } else if |utf8Remainder| > 3 {
        LossyIsMaximalSubpartSubstitution(utf8Remainder);
        buffer := buffer + Lossy(utf8Remainder);
        utf8Remainder := [];
        AppendInput(newBytes);
      } else {
        var combined := utf8Remainder + newBytes;
        utf8Remainder := [];
        AppendInput(combined);
      }
    }

    /** Its loop: validate, commit the valid part, replace or keep what follows. */
    method AppendInput(input: seq<byte>)
      requires utf8Remainder == []
      modifies this
      ensures buffer == old(buffer) + Decode(input).text
      ensures utf8Remainder == Decode(input).rest
    {
      hide Committed, Decode, FromUtf8;
      var pos := 0;
      ghost var done := [];
      CommitNothing(input);
      while true
        invariant pos <= |input|
        invariant utf8Remainder == []
        invariant buffer == old(buffer) + done
        invariant Committed(input, pos, done)
        decreases |input| - pos
      {
        var check := FromUtf8(input[pos..]);
        if check.Fine? {
          CommitFine(input, pos, done);
          buffer := buffer + input[pos..];
          Associative(old(buffer), done, input[pos..]);
          return;
        }
        var validUpTo := pos + check.validUpTo;
        buffer := buffer + input[pos..validUpTo];
        Associative(old(buffer), done, input[pos..validUpTo]);
        match check.errorLen
        case Some(n) =>
          CommitInvalid(input, pos, done, check.validUpTo, n);
          buffer := buffer + REPLACEMENT;
          Associative(old(buffer), done + input[pos..validUpTo], REPLACEMENT);
          done := done + input[pos..validUpTo] + REPLACEMENT;
          pos := validUpTo + n;
        case None =>
          CommitIncomplete(input, pos, done, check.validUpTo);
          utf8Remainder := input[validUpTo..];
          return;
      }
    }

    /** `push_chunk`. */
    method PushChunk(chunk: seq<byte>) returns (frames: seq<seq<byte>>)
      requires IsResting()
      modifies this
      ensures Pushed(frames, Abstract()) == Push(old(Abstract()), chunk)
      ensures IsResting()
    {
      PushKeepsResting(Abstract(), chunk);
      AppendUtf8Safe(chunk);
      frames := CutFrames();
    }

    /** Its loop: drain one block after the other. */
    method CutFrames() returns (frames: seq<seq<byte>>)
      modifies `buffer
      ensures frames == Frames(Cut(old(buffer)).blocks)
      ensures buffer == Cut(old(buffer)).rest
    {
      hide Cut, Frames, Trim, FirstDelimiter;
      frames := [];
      var next := FindSseDelimiter(buffer);
      ghost var ahead := Frames(Cut(buffer).blocks);
      while next.Some?
        invariant next == FirstDelimiter(buffer, 0)
        invariant ahead == Frames(Cut(buffer).blocks)
        invariant Frames(Cut(old(buffer)).blocks) == frames + ahead
        invariant Cut(old(buffer)).rest == Cut(buffer).rest
        decreases |buffer|
      {
        var Delimiter(pos, len) := next.value;
        var block := Trim(buffer[..pos]);
        CutFirst(buffer);
        buffer := buffer[pos + len..];
        ahead := Frames(Cut(buffer).blocks);
        next := FindSseDelimiter(buffer);
        if block == [] {
          assert [] + ahead == ahead;
          continue;
        }
        Associative(frames, [block], ahead);
        frames := frames + [block];
      }
      CutNothing(buffer);
      assert frames + [] == frames;
    }
  }
}
