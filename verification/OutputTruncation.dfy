/** Cutting the middle out of a text that is over its token budget. */
module OutputTruncation {
  import opened Wrappers

  datatype TruncatedText = TruncatedText(text: string, originalTokenCount: nat, truncated: bool)

  function ApproximateTokenCount(text: string): nat {
    (|text| + 2) / 3
  }

  function Digit(d: nat): (c: char)
    requires d < 10
    ensures '0' <= c <= '9'
  {
    "0123456789"[d]
  }

  function Decimal(n: nat): (digits: string)
    ensures digits != "" && Digits(digits)
  {
    if n < 10 then [Digit(n)] else Decimal(n / 10) + [Digit(n % 10)]
  }

  predicate Digits(text: string) {
    forall i :: 0 <= i < |text| ==> '0' <= text[i] <= '9'
  }

  function Marker(excess: nat): (marker: string)
    ensures |marker| > 0
  {
    "\n[" + Decimal(excess) + " tokens truncated]\n"
  }

  /** The tokens left for the text itself. */
  function ContentBudget(maxTokens: nat, marker: string, notice: string): nat {
    Most(maxTokens - ApproximateTokenCount(marker) - ApproximateTokenCount(notice), 1)
  }

  function HeadChars(contentBudget: nat): nat {
    Most(contentBudget * 2 / 3 * 3, 1)
  }

  function TailChars(contentBudget: nat): nat {
    Most((contentBudget - contentBudget * 2 / 3) * 3, 1)
  }

  function TakeFirst(text: string, n: nat): string {
    if n <= |text| then text[..n] else text
  }

  function TakeLast(text: string, n: nat): string {
    if n <= |text| then text[|text| - n..] else text
  }

  function NoticeText(notice: Option<string>): string {
    if notice.Some? then notice.value else ""
  }

  function Truncate(text: string, maxTokens: nat, notice: Option<string>): TruncatedText {
    var budget := Most(maxTokens, 1);
    var count := ApproximateTokenCount(text);
    if count <= budget then TruncatedText(text, count, false)
    else
      var marker := Marker(count - budget);
      var content := ContentBudget(budget, marker, NoticeText(notice));
      TruncatedText(
        TakeFirst(text, HeadChars(content)) + marker + TakeLast(text, TailChars(content)) + NoticeText(notice), count, true)
  }

  lemma ContentSize(content: nat)
    requires content >= 1
    ensures HeadChars(content) > 0 && TailChars(content) > 0
    ensures HeadChars(content) + TailChars(content) == if content == 1 then 4 else 3 * content
  {
  }

  /** The result keeps a beginning and an end of the text which do not meet, two thirds
      and one third of the tokens that marker and notice leave of the budget, or else
      one character and three. */
  lemma KeepsBothEnds(text: string, maxTokens: nat, notice: Option<string>) returns (head: nat, tail: nat)
    requires Truncate(text, maxTokens, notice).truncated
    ensures 0 < head && 0 < tail && head + tail <= |text|
    ensures var budget := if maxTokens == 0 then 1 else maxTokens;
            && (|text| + 2) / 3 > budget
            && var marker := "\n[" + Decimal((|text| + 2) / 3 - budget) + " tokens truncated]\n";
               var end := match notice case None => "" case Some(s) => s;
               var room := budget - (|marker| + 2) / 3 - (|end| + 2) / 3;
               && Truncate(text, maxTokens, notice).text == text[..head] + marker + text[|text| - tail..] + end
               && (room >= 2 ==> head == 2 * room / 3 * 3 && head + tail == 3 * room)
               && (room < 2 ==> head == 1 && tail == 3)
  {
    hide Decimal, Truncate, Marker;
    head, tail := KeptEnds(text, maxTokens, notice);
    MarkerIs((|text| + 2) / 3 - if maxTokens == 0 then 1 else maxTokens);
  }

  lemma MarkerIs(excess: nat)
    ensures Marker(excess) == "\n[" + Decimal(excess) + " tokens truncated]\n"
  {
    hide Decimal;
  }

  lemma KeptEnds(text: string, maxTokens: nat, notice: Option<string>) returns (head: nat, tail: nat)
    requires Truncate(text, maxTokens, notice).truncated
    ensures 0 < head && 0 < tail && head + tail <= |text|
    ensures var budget := if maxTokens == 0 then 1 else maxTokens;
            && (|text| + 2) / 3 > budget
            && var marker, end := Marker((|text| + 2) / 3 - budget), NoticeText(notice);
               var room := budget - (|marker| + 2) / 3 - (|end| + 2) / 3;
               && Truncate(text, maxTokens, notice).text == text[..head] + marker + text[|text| - tail..] + end
               && (room >= 2 ==> head == 2 * room / 3 * 3 && head + tail == 3 * room)
               && (room < 2 ==> head == 1 && tail == 3)
  {
    hide Marker, HeadChars, TailChars;
    var budget := if maxTokens == 0 then 1 else maxTokens;
    var marker, end := Marker((|text| + 2) / 3 - budget), NoticeText(notice);
    var room := budget - (|marker| + 2) / 3 - (|end| + 2) / 3;
    head, tail := HeadChars(Most(room, 1)), TailChars(Most(room, 1));
    SizesFor(room);
    EndsFit(|text|, budget, room);
  }

  lemma SizesFor(room: int)
    ensures var head, tail := HeadChars(Most(room, 1)), TailChars(Most(room, 1));
            && (room >= 2 ==> head == 2 * room / 3 * 3 && head > 0 && tail > 0 && head + tail == 3 * room)
            && (room < 2 ==> head == 1 && tail == 3)
  {
  }

  lemma EndsFit(length: nat, budget: nat, room: int)
    requires (length + 2) / 3 > budget >= 1 && room <= budget
    ensures length >= 4 && length >= 3 * room
  {
  }

  /** A text is cut exactly when it is over the budget, which is at least one token. */
  lemma TruncatedIffOverBudget(text: string, maxTokens: nat, notice: Option<string>)
    ensures var r := Truncate(text, maxTokens, notice);
            && (r.truncated <==> |text| > 3 * maxTokens && |text| > 3)
            && (!r.truncated ==> r.text == text)
            && r.originalTokenCount == (|text| + 2) / 3
  {
  }

  /** What the marker and the notice cost. */
  function Overhead(text: string, maxTokens: nat, notice: Option<string>): nat
    requires ApproximateTokenCount(text) > Most(maxTokens, 1)
  {
    ApproximateTokenCount(Marker(ApproximateTokenCount(text) - Most(maxTokens, 1))) + ApproximateTokenCount(NoticeText(notice))
  }

  /** The marker and the notice leave room for more than the least there is of the text. */
  predicate HasRoom(text: string, maxTokens: nat, notice: Option<string>)
    requires ApproximateTokenCount(text) > Most(maxTokens, 1)
  {
    Most(maxTokens, 1) >= Overhead(text, maxTokens, notice) + 2
  }

  /** The length of what is left without that room: a character, the marker, three
      characters and the notice. */
  function LeastLength(text: string, maxTokens: nat, notice: Option<string>): nat
    requires ApproximateTokenCount(text) > Most(maxTokens, 1)
  {
    4 + |Marker(ApproximateTokenCount(text) - Most(maxTokens, 1))| + |NoticeText(notice)|
  }

  lemma TruncatedLength(text: string, maxTokens: nat, notice: Option<string>)
    requires ApproximateTokenCount(text) > Most(maxTokens, 1)
    ensures var overhead := Overhead(text, maxTokens, notice);
            var budget := Most(maxTokens, 1);
            |Truncate(text, maxTokens, notice).text| ==
              |Marker(ApproximateTokenCount(text) - budget)| + |NoticeText(notice)|
              + if budget <= overhead + 1 then 4 else 3 * (budget - overhead)
  {
    hide Marker;
    var budget := Most(maxTokens, 1);
    var content := ContentBudget(budget, Marker(ApproximateTokenCount(text) - budget), NoticeText(notice));
    ContentSize(content);
  }

  /** Truncated text is within the budget, or as short as marker and notice allow. */
  lemma TokenBound(text: string, maxTokens: nat, notice: Option<string>)
    requires ApproximateTokenCount(text) > Most(maxTokens, 1)
    ensures ApproximateTokenCount(Truncate(text, maxTokens, notice).text)
            <= Most(Most(maxTokens, 1), Overhead(text, maxTokens, notice) + 2)
  {
    hide Marker;
    TruncatedLength(text, maxTokens, notice);
  }

  /** Exactly when truncating brings a text within its budget. */
  lemma FitsExactly(text: string, maxTokens: nat, notice: Option<string>)
    requires ApproximateTokenCount(text) > Most(maxTokens, 1)
    ensures var budget := Most(maxTokens, 1);
            ApproximateTokenCount(Truncate(text, maxTokens, notice).text) <= budget
            <==> HasRoom(text, maxTokens, notice) || LeastLength(text, maxTokens, notice) <= 3 * budget
  {
    hide Marker;
    TruncatedLength(text, maxTokens, notice);
  }

  /** Exactly when truncating makes a text shorter, leaves its length, makes it longer. */
  lemma LengthExactly(text: string, maxTokens: nat, notice: Option<string>)
    requires ApproximateTokenCount(text) > Most(maxTokens, 1)
    ensures var r, room, least := Truncate(text, maxTokens, notice).text, HasRoom(text, maxTokens, notice), LeastLength(text, maxTokens, notice);
            && (|r| < |text| <==> room || least < |text|)
            && (|r| == |text| <==> !room && least == |text|)
            && (|r| > |text| <==> !room && least > |text|)
  {
    hide Marker, Truncate;
    TruncatedLength(text, maxTokens, notice);
    if HasRoom(text, maxTokens, notice) {
      RoomShortens(text, maxTokens, notice);
    }
  }

  lemma RoomShortens(text: string, maxTokens: nat, notice: Option<string>)
    requires ApproximateTokenCount(text) > Most(maxTokens, 1) && HasRoom(text, maxTokens, notice)
    ensures |Truncate(text, maxTokens, notice).text| < |text|
  {
    hide Marker, Truncate;
    TruncatedLength(text, maxTokens, notice);
  }

  /** The cut would go through a marker of the text's own, behind its first character,
      and the three characters that follow it are also its last three, with the notice
      behind the former. */
  predicate CutAtOwnMarker(text: string, maxTokens: nat, notice: Option<string>)
    requires ApproximateTokenCount(text) > Most(maxTokens, 1)
  {
    var marker := Marker(ApproximateTokenCount(text) - Most(maxTokens, 1));
    var n := 1 + |marker|;
    && !HasRoom(text, maxTokens, notice)
    && |text| == n + 3 + |NoticeText(notice)|
    && text[1..n] == marker
    && text[n..n + 3] == text[|text| - 3..]
    && text[n + 3..] == NoticeText(notice)
  }

  /** Exactly when a text that is truncated stays as it is. */
  lemma UnchangedExactly(text: string, maxTokens: nat, notice: Option<string>)
    requires ApproximateTokenCount(text) > Most(maxTokens, 1)
    ensures Truncate(text, maxTokens, notice).text == text <==> CutAtOwnMarker(text, maxTokens, notice)
  {
    hide Marker, HasRoom, Overhead, Truncate, ApproximateTokenCount, Most;
    var marker, end := Marker(ApproximateTokenCount(text) - Most(maxTokens, 1)), NoticeText(notice);
    var n := 1 + |marker|;
    LengthExactly(text, maxTokens, notice);
    if !HasRoom(text, maxTokens, notice) && |text| == n + 3 + |end| {
      TruncatedWithoutRoom(text, maxTokens, notice);
      SamePieces(text, text[..1], marker, text[|text| - 3..], end);
    }
  }

  lemma TruncatedWithoutRoom(text: string, maxTokens: nat, notice: Option<string>)
    requires ApproximateTokenCount(text) > Most(maxTokens, 1) && !HasRoom(text, maxTokens, notice)
    ensures Truncate(text, maxTokens, notice).text ==
            text[..1] + Marker(ApproximateTokenCount(text) - Most(maxTokens, 1)) + text[|text| - 3..] + NoticeText(notice)
  {
    hide Marker;
  }

  lemma SamePieces(text: string, a: string, b: string, c: string, d: string)
    requires |text| == |a| + |b| + |c| + |d| && a == text[..|a|]
    ensures var n, m := |a| + |b|, |a| + |b| + |c|;
            a + b + c + d == text <==> text[|a|..n] == b && text[n..m] == c && text[m..] == d
  {
    var n, m := |a| + |b|, |a| + |b| + |c|;
    var all := a + b + c + d;
    assert all[..|a|] == a && all[|a|..n] == b && all[n..m] == c && all[m..] == d;
    assert text == text[..|a|] + text[|a|..n] + text[n..m] + text[m..];
  }

  // ------------------------------------------------------- truncating once more

  lemma SameDigit(d: nat, e: nat)
    requires d < 10 && e < 10 && Digit(d) == Digit(e)
    ensures d == e
  {
  }

  function Value(digits: string): nat
    requires Digits(digits)
  {
    if digits == "" then 0 else 10 * Value(digits[..|digits| - 1]) + DigitValue(digits[|digits| - 1])
  }

  function DigitValue(c: char): nat
    requires '0' <= c <= '9'
  {
    c as int - '0' as int
  }

  lemma DigitMeans(d: nat)
    requires d < 10
    ensures DigitValue(Digit(d)) == d
  {
  }

  /** The number in the marker is written in decimal, without leading zeros. */
  lemma {:induction false} DecimalMeans(n: nat)
    ensures Value(Decimal(n)) == n
    ensures n > 0 ==> Decimal(n)[0] != '0'
    ensures n == 0 ==> Decimal(n) == "0"
  {
    LastDigit(n);
    DigitMeans(n % 10);
    hide Digit, DigitValue;
    if n >= 10 {
      DecimalMeans(n / 10);
    } else {
      assert Decimal(n) == [Digit(n)];
      FirstDigit(n);
    }
  }

  lemma FirstDigit(n: nat)
    requires n < 10
    ensures Digit(n) == '0' <==> n == 0
  {
  }

  lemma LastDigit(n: nat)
    ensures var digits := Decimal(n);
            && digits[|digits| - 1] == Digit(n % 10)
            && digits[..|digits| - 1] == if n < 10 then "" else Decimal(n / 10)
  {
    hide Digit;
  }

  lemma {:induction false} SameDecimal(a: nat, b: nat)
    requires Decimal(a) == Decimal(b)
    ensures a == b
  {
    LastDigit(a);
    LastDigit(b);
    SameDigit(a % 10, b % 10);
    hide Decimal, Digit;
    if a >= 10 && b >= 10 {
      SameDecimal(a / 10, b / 10);
    }
  }

  /** No number is the beginning of another one with a blank behind it. */
  lemma SameNumber(a: nat, b: nat, text: string)
    requires Decimal(a) + " " <= text && Decimal(b) + " " <= text
    ensures a == b
  {
    hide Decimal;
    var x, y := Decimal(a), Decimal(b);
    EndsDigits(x, text);
    EndsDigits(y, text);
    assert x == text[..|x|] && y == text[..|y|];
    SameDecimal(a, b);
  }

  lemma EndsDigits(x: string, text: string)
    requires Digits(x) && x + " " <= text
    ensures text[|x|] == ' ' && x == text[..|x|]
    ensures forall i :: 0 <= i < |x| ==> '0' <= text[i] <= '9'
  {
    assert (x + " ")[|x|] == ' ' && (x + " ")[..|x|] == x;
  }

  /** A text starts with at most one marker. */
  lemma OneMarker(a: nat, b: nat, text: string)
    requires Marker(a) <= text && Marker(b) <= text
    ensures a == b
  {
    NumberBehind(a, text);
    NumberBehind(b, text);
    SameNumber(a, b, text[2..]);
  }

  lemma NumberBehind(a: nat, text: string)
    requires Marker(a) <= text
    ensures |text| >= 2 && Decimal(a) + " " <= text[2..]
  {
    hide Decimal;
    var d := Decimal(a) + " ";
    assert Marker(a)[2..2 + |d|] == d;
  }

  /** The text is within the budget, or is once it has been truncated. */
  predicate Fits(text: string, maxTokens: nat, notice: Option<string>) {
    var budget := Most(maxTokens, 1);
    ApproximateTokenCount(text) <= budget || HasRoom(text, maxTokens, notice) || LeastLength(text, maxTokens, notice) <= 3 * budget
  }

  /** The truncated text, one character, marker, three characters and notice, counts as
      many tokens as the text did, so that the marker is the same again; the notice is
      the same; and with the notice behind them those three characters come last. */
  predicate Repeats(text: string, maxTokens: nat, notice: Option<string>, again: Option<string>)
    requires ApproximateTokenCount(text) > Most(maxTokens, 1)
  {
    var end := NoticeText(notice);
    && (LeastLength(text, maxTokens, notice) + 2) / 3 == ApproximateTokenCount(text)
    && NoticeText(again) == end
    && (TakeLast(text, 3) + end)[|end|..] == TakeLast(text, 3)
  }

  /** Exactly when truncating a second time, whatever notice comes with it, does not
      truncate, and when it changes nothing. */
  lemma Idempotent(text: string, maxTokens: nat, notice: Option<string>, again: Option<string>)
    ensures var r := Truncate(text, maxTokens, notice).text;
            && (Truncate(r, maxTokens, again) == TruncatedText(r, ApproximateTokenCount(r), false) <==> Fits(text, maxTokens, notice))
            && (Truncate(r, maxTokens, again).text == r
                <==> Fits(text, maxTokens, notice) || Repeats(text, maxTokens, notice, again))
  {
    hide Marker, HasRoom, LeastLength, Repeats;
    if ApproximateTokenCount(text) > Most(maxTokens, 1) {
      FitsExactly(text, maxTokens, notice);
      if !Fits(text, maxTokens, notice) {
        RepeatsExactly(text, maxTokens, notice, again);
      }
    }
  }

  lemma RepeatsExactly(text: string, maxTokens: nat, notice: Option<string>, again: Option<string>)
    requires !Fits(text, maxTokens, notice)
    ensures var r := Truncate(text, maxTokens, notice).text;
            Truncate(r, maxTokens, again).text == r <==> Repeats(text, maxTokens, notice, again)
  {
    hide Marker, Truncate, CutAtOwnMarker;
    var budget := Most(maxTokens, 1);
    var r := Truncate(text, maxTokens, notice).text;
    TruncatedLength(text, maxTokens, notice);
    TruncatedWithoutRoom(text, maxTokens, notice);
    UnchangedExactly(r, maxTokens, again);
    SameCut(r, text[..1], ApproximateTokenCount(text) - budget, TakeLast(text, 3), NoticeText(notice), maxTokens, again);
  }

  lemma SameCut(r: string, first: string, excess: nat, last: string, end: string, maxTokens: nat, again: Option<string>)
    requires r == first + Marker(excess) + last + end && |first| == 1 && |last| == 3
    requires ApproximateTokenCount(r) > Most(maxTokens, 1)
    ensures var budget := Most(maxTokens, 1);
            CutAtOwnMarker(r, maxTokens, again)
            <==> && budget < ApproximateTokenCount(Marker(excess)) + ApproximateTokenCount(end) + 2
                 && ApproximateTokenCount(r) - budget == excess
                 && NoticeText(again) == end
                 && (last + end)[|end|..] == last
  {
    hide Marker, ApproximateTokenCount;
    var excessAgain := ApproximateTokenCount(r) - Most(maxTokens, 1);
    var n := 1 + |Marker(excessAgain)|;
    PiecesOf(r, first, Marker(excess), last, end);
    if n <= |r| && r[1..n] == Marker(excessAgain) {
      assert Marker(excessAgain) <= r[1..];
      OneMarker(excess, excessAgain, r[1..]);
    }
  }

  lemma PiecesOf(r: string, a: string, b: string, c: string, d: string)
    requires r == a + b + c + d && |a| == 1 && |c| == 3
    ensures b <= r[1..]
    ensures r[1 + |b|..4 + |b|] == c && r[4 + |b|..] == d && r[|r| - 3..] == (c + d)[|d|..]
  {
    assert r[1..] == b + (c + d);
    assert r == a + b + (c + d);
  }

  /** Inputs without that room: a result longer than the text and over the budget, and
      one that is reported as truncated although nothing changed. */
  lemma WithoutRoom()
    ensures |Truncate("abcd", 1, None).text| == 26 && ApproximateTokenCount(Truncate("abcd", 1, None).text) == 9
    ensures var text := "a" + Marker(1) + "bcd";
            Truncate(text, 8, None) == TruncatedText(text, 9, true)
  {
    MarkerOfOne();
    hide Marker, Truncate;
    TruncatedAtOne("abcd", 1);
    TruncatedAtOne("a" + Marker(1) + "bcd", 8);
  }

  lemma MarkerOfOne()
    ensures |Marker(1)| == 22
  {
    assert Decimal(1) == [Digit(1)];
  }

  /** One token over a budget too small for the marker leaves four characters. */
  lemma TruncatedAtOne(text: string, maxTokens: nat)
    requires ApproximateTokenCount(text) == maxTokens + 1 && 1 <= maxTokens <= 8
    ensures Truncate(text, maxTokens, None) ==
            TruncatedText(text[..1] + Marker(1) + text[|text| - 3..], maxTokens + 1, true)
  {
    MarkerOfOne();
    hide Marker;
    var kept := text[..1] + Marker(1) + text[|text| - 3..];
    assert kept + "" == kept;
  }
}
