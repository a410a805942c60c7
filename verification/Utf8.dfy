/**
 UTF-8 as the standard library's `str::from_utf8` sees it. Strings are the byte
 sequences that encode them, so every offset in the project is a byte offset.

 Well-formedness is the table of section 4 of RFC 3629. Replacement follows
 section 3.9 of the Unicode Standard: every maximal subpart of an ill-formed
 subsequence becomes one U+FFFD.
 */
module Utf8 {
  import opened Wrappers
  import opened Sequences

  type byte = b: int | 0 <= b < 256

  /** The encoding of U+FFFD REPLACEMENT CHARACTER. */
  const REPLACEMENT: seq<byte> := [0xEF, 0xBF, 0xBD]

  // ------------------------------------------------------------------ the table

  /** Length of the sequence a lead byte announces; 0 when no sequence starts so. */
  function Width(lead: byte): nat {
    if lead <= 0x7F then 1
    else if 0xC2 <= lead <= 0xDF then 2
    else if 0xE0 <= lead <= 0xEF then 3
    else if 0xF0 <= lead <= 0xF4 then 4
    else 0
  }

  predicate IsContinuation(b: byte) {
    0x80 <= b <= 0xBF
  }

  /** The second byte is restricted further after E0, ED, F0 and F4. */
  predicate SecondFits(lead: byte, b: byte) {
    if lead == 0xE0 then 0xA0 <= b <= 0xBF
    else if lead == 0xED then 0x80 <= b <= 0x9F
    else if lead == 0xF0 then 0x90 <= b <= 0xBF
    else if lead == 0xF4 then 0x80 <= b <= 0x8F
    else IsContinuation(b)
  }

  /** s encodes exactly one scalar value. */
  predicate IsScalar(s: seq<byte>) {
    && |s| > 0
    && |s| == Width(s[0])
    && (|s| >= 2 ==> SecondFits(s[0], s[1]))
    && (|s| >= 3 ==> IsContinuation(s[2]))
    && (|s| >= 4 ==> IsContinuation(s[3]))
  }

  /** s can be continued, or is already complete: it begins some scalar's encoding. */
  ghost predicate BeginsScalar(s: seq<byte>) {
    exists t: seq<byte> :: IsScalar(s + t)
  }

  // ------------------------------------------------- what the table stands for

  /** A Unicode scalar value: any code point but a surrogate. */
  predicate IsScalarValue(v: int) {
    0 <= v <= 0x10FFFF && !(0xD800 <= v <= 0xDFFF)
  }

  /** The shortest encoding of a scalar value, six bits to a continuation byte. */
  function Encode(v: nat): seq<byte>
    requires IsScalarValue(v)
  {
    if v < 0x80 then [v]
    else if v < 0x800 then [0xC0 + v / 64, 0x80 + v % 64]
    else if v < 0x1_0000 then [0xE0 + v / 64 / 64, 0x80 + v / 64 % 64, 0x80 + v % 64]
    else [0xF0 + v / 64 / 64 / 64, 0x80 + v / 64 / 64 % 64, 0x80 + v / 64 % 64, 0x80 + v % 64]
  }

  /** The bits of a byte behind its mark. */
  function Payload(b: byte, mark: int): int {
    b as int - mark
  }

  /** The value a sequence of the table encodes. */
  function CodePoint(s: seq<byte>): int
    requires IsScalar(s)
  {
    if |s| == 1 then s[0]
    else if |s| == 2 then Payload(s[0], 0xC0) * 64 + Payload(s[1], 0x80)
    else if |s| == 3 then (Payload(s[0], 0xE0) * 64 + Payload(s[1], 0x80)) * 64 + Payload(s[2], 0x80)
    else ((Payload(s[0], 0xF0) * 64 + Payload(s[1], 0x80)) * 64 + Payload(s[2], 0x80)) * 64 + Payload(s[3], 0x80)
  }

  lemma SixBits(q: nat, r: nat)
    requires r < 64
    ensures (q * 64 + r) / 64 == q && (q * 64 + r) % 64 == r
  {
  }

  lemma EncodesThree(v: nat)
    requires IsScalarValue(v) && 0x800 <= v < 0x1_0000
    ensures IsScalar(Encode(v)) && CodePoint(Encode(v)) == v
  {
    var a, b, c := v / 64 / 64, v / 64 % 64, v % 64;
    assert v == (a * 64 + b) * 64 + c;
    assert a < 16 && (a == 0 ==> b >= 32) && (a == 13 ==> b < 32);
    assert Encode(v) == [0xE0 + a, 0x80 + b, 0x80 + c];
  }

  lemma EncodesFour(v: nat)
    requires IsScalarValue(v) && 0x1_0000 <= v
    ensures IsScalar(Encode(v)) && CodePoint(Encode(v)) == v
  {
    var a, b, c, d := v / 64 / 64 / 64, v / 64 / 64 % 64, v / 64 % 64, v % 64;
    assert v == ((a * 64 + b) * 64 + c) * 64 + d;
    assert a < 5 && (a == 0 ==> b >= 16) && (a == 4 ==> b < 16);
    assert Encode(v) == [0xF0 + a, 0x80 + b, 0x80 + c, 0x80 + d];
  }

  /** The table holds the encoding of every scalar value, and gives the value back ... */
  lemma EncodingIsInTable(v: nat)
    requires IsScalarValue(v)
    ensures IsScalar(Encode(v)) && CodePoint(Encode(v)) == v
  {
    if v >= 0x1_0000 {
      EncodesFour(v);
    } else if v >= 0x800 {
      EncodesThree(v);
    }
  }

  lemma ThreeEncode(s: seq<byte>)
    requires IsScalar(s) && |s| == 3
    ensures IsScalarValue(CodePoint(s)) && Encode(CodePoint(s)) == s
  {
    var a, b, c := Payload(s[0], 0xE0), Payload(s[1], 0x80), Payload(s[2], 0x80);
    SixBits(a * 64 + b, c);
    SixBits(a, b);
    var v := CodePoint(s);
    assert v == (a * 64 + b) * 64 + c && 0x800 <= v < 0x1_0000;
  }

  lemma FourEncode(s: seq<byte>)
    requires IsScalar(s) && |s| == 4
    ensures IsScalarValue(CodePoint(s)) && Encode(CodePoint(s)) == s
  {
    var a, b, c, d := Payload(s[0], 0xF0), Payload(s[1], 0x80), Payload(s[2], 0x80), Payload(s[3], 0x80);
    SixBits((a * 64 + b) * 64 + c, d);
    SixBits(a * 64 + b, c);
    SixBits(a, b);
    var v := CodePoint(s);
    assert v == ((a * 64 + b) * 64 + c) * 64 + d && 0x1_0000 <= v <= 0x10FFFF;
  }

  /** ... and nothing else: no surrogate, no longer form, nothing above U+10FFFF. */
  lemma TableIsEncodings(s: seq<byte>)
    requires IsScalar(s)
    ensures IsScalarValue(CodePoint(s)) && Encode(CodePoint(s)) == s
  {
    if |s| == 4 {
      FourEncode(s);
    } else if |s| == 3 {
      ThreeEncode(s);
    }
  }

  /** The replacement character is U+FFFD. */
  lemma ReplacementIs()
    ensures REPLACEMENT == Encode(0xFFFD)
  {
  }

  // ------------------------------------------------- one step of the validator

  datatype Head = Scalar(len: nat) | Invalid(len: nat) | Incomplete

  /** What the validator finds at the front of a non-empty input. */
  function HeadOf(s: seq<byte>): (h: Head)
    requires |s| > 0
    ensures !h.Incomplete? ==> 0 < h.len <= |s|
    ensures h.Incomplete? ==> |s| <= 3
  {
    var w := Width(s[0]);
    if w == 0 then Invalid(1)
    else if w == 1 then Scalar(1)
    else if |s| < 2 then Incomplete
    else if !SecondFits(s[0], s[1]) then Invalid(1)
    else if w == 2 then Scalar(2)
    else if |s| < 3 then Incomplete
    else if !IsContinuation(s[2]) then Invalid(2)
    else if w == 3 then Scalar(3)
    else if |s| < 4 then Incomplete
    else if !IsContinuation(s[3]) then Invalid(3)
    else Scalar(4)
  }

  /** s passes every row of the table as far as it goes. */
  predicate FitsTable(s: seq<byte>) {
    && |s| > 0
    && |s| <= Width(s[0])
    && (|s| >= 2 ==> SecondFits(s[0], s[1]))
    && (|s| >= 3 ==> IsContinuation(s[2]))
    && (|s| >= 4 ==> IsContinuation(s[3]))
  }

  /** Shortest-first completion of a sequence that fits the table so far. */
  function Completion(s: seq<byte>): (t: seq<byte>)
    requires FitsTable(s)
    ensures IsScalar(s + t)
    ensures t == [] <==> IsScalar(s)
  {
    var missing := Width(s[0]) - |s|;
    var second: byte := if s[0] == 0xE0 then 0xA0 else if s[0] == 0xF0 then 0x90 else 0x80;
    if missing == 0 then assert s + [] == s; []
    else if missing == 1 then (if |s| == 1 then [second] else [0x80])
    else if missing == 2 then (if |s| == 1 then [second, 0x80] else [0x80, 0x80])
    else [second, 0x80, 0x80]
  }

  lemma BeginsIffFits(s: seq<byte>)
    requires |s| > 0
    ensures BeginsScalar(s) <==> FitsTable(s)
    ensures (exists t: seq<byte> :: t != [] && IsScalar(s + t)) <==> FitsTable(s) && !IsScalar(s)
  {
    forall t: seq<byte> | IsScalar(s + t)
      ensures FitsTable(s) && (t != [] ==> !IsScalar(s))
    {
      assert forall i :: 0 <= i < |s| ==> (s + t)[i] == s[i];
    }
    if FitsTable(s) {
      assert IsScalar(s + Completion(s));
    }
  }

  /** The validator's verdict is the standard's: a scalar is found exactly when a
      prefix is well-formed; input is incomplete exactly when it is a proper prefix
      of a well-formed sequence; an error's length is the maximal subpart. */
  lemma HeadMeansTable(s: seq<byte>)
    requires |s| > 0
    ensures forall n: nat :: HeadOf(s) == Scalar(n) <==> 0 < n <= |s| && IsScalar(s[..n])
    ensures HeadOf(s).Incomplete? <==> exists t: seq<byte> :: t != [] && IsScalar(s + t)
    ensures HeadOf(s).Invalid? ==>
              var n := HeadOf(s).len;
              && (n > 1 ==> BeginsScalar(s[..n]))
              && (forall k :: n < k <= |s| ==> !BeginsScalar(s[..k]))
  {
    forall n | 0 < n <= |s|
      ensures IsScalar(s[..n]) <==> HeadOf(s) == Scalar(n)
      ensures BeginsScalar(s[..n]) <==> FitsTable(s[..n])
    {
      BeginsIffFits(s[..n]);
      assert forall i :: 0 <= i < n ==> s[..n][i] == s[i];
    }
    BeginsIffFits(s);
  }

  /** Once the front is decided, later bytes cannot change the verdict. */
  lemma HeadStable(s: seq<byte>, t: seq<byte>)
    requires |s| > 0 && !HeadOf(s).Incomplete?
    ensures HeadOf(s + t) == HeadOf(s)
  {
    assert forall i :: 0 <= i < |s| ==> (s + t)[i] == s[i];
  }

  // ------------------------------------------------------------------ validity

  predicate Valid(s: seq<byte>)
    decreases |s|
  {
    s == [] || (HeadOf(s).Scalar? && Valid(s[HeadOf(s).len..]))
  }

  lemma {:induction false} ValidConcat(a: seq<byte>, b: seq<byte>)
    requires Valid(a)
    ensures Valid(a + b) <==> Valid(b)
    decreases |a|
  {
    if a == [] {
      assert a + b == b;
    } else {
      HeadStable(a, b);
      var n := HeadOf(a).len;
      assert (a + b)[n..] == a[n..] + b;
      ValidConcat(a[n..], b);
    }
  }

  /** An ASCII byte is always a character of its own: cutting there is safe. */
  lemma {:induction false} ValidSplitAtAscii(a: seq<byte>, c: byte, b: seq<byte>)
    requires c <= 0x7F && Valid(a + [c] + b)
    ensures Valid(a) && Valid(a + [c]) && Valid([c] + b) && Valid(b)
    decreases |a|
  {
    var s := a + [c] + b;
    assert s[|a|] == c;
    if a == [] {
      assert s == [c] + b && s[1..] == b;
      assert Valid([c]) by { assert [c][1..] == []; }
      assert a + [c] == [c];
    } else {
      var n := HeadOf(s).len;
      assert s[0] == a[0];
      assert n <= |a|;
      assert s[n..] == a[n..] + [c] + b;
      ValidSplitAtAscii(a[n..], c, b);
      assert HeadOf(a) == Scalar(n);
      assert (a + [c])[n..] == a[n..] + [c];
      HeadStable(a, [c]);
    }
  }

  // ---------------------------------------------------------- incremental decoding

  /** Text that can be committed, and the incomplete bytes that must wait. */
  datatype Decoded = Decoded(text: seq<byte>, rest: seq<byte>)

  function Decode(s: seq<byte>): Decoded
    decreases |s|
  {
    if s == [] then Decoded([], [])
    else
      var h := HeadOf(s);
      if h.Incomplete? then Decoded([], s)
      else
        var d := Decode(s[h.len..]);
        Decoded((if h.Scalar? then s[..h.len] else REPLACEMENT) + d.text, d.rest)
  }

  /** `String::from_utf8_lossy`: an incomplete tail is one replacement character. */
  function Lossy(s: seq<byte>): seq<byte> {
    var d := Decode(s);
    d.text + (if d.rest == [] then [] else REPLACEMENT)
  }

  /** The bytes still waiting are never more than three, and decide nothing yet. */
  lemma {:induction false} RestIsIncomplete(s: seq<byte>)
    ensures var r := Decode(s).rest; |r| <= 3 && (r != [] ==> HeadOf(r).Incomplete?) && Decode(r) == Decoded([], r)
    decreases |s|
  {
    if s != [] && !HeadOf(s).Incomplete? {
      RestIsIncomplete(s[HeadOf(s).len..]);
    }
  }

  /** Decoding may stop anywhere and continue from the bytes left waiting. */
  lemma {:induction false} DecodeConcat(a: seq<byte>, b: seq<byte>)
    ensures var d := Decode(a);
            var e := Decode(d.rest + b);
            Decode(a + b) == Decoded(d.text + e.text, e.rest)
    decreases |a|
  {
    hide HeadOf;
    if a == [] {
      assert a + b == b;
      assert Decode(a).rest + b == b;
      assert Decode(a).text + Decode(b).text == Decode(b).text;
    } else if HeadOf(a).Incomplete? {
      assert Decode(a).text + Decode(a + b).text == Decode(a + b).text;
    } else {
      var n := HeadOf(a).len;
      HeadStable(a, b);
      assert (a + b)[n..] == a[n..] + b;
      assert (a + b)[..n] == a[..n];
      DecodeConcat(a[n..], b);
      var d := Decode(a[n..]);
      var e := Decode(d.rest + b);
      var front := if HeadOf(a).Scalar? then a[..n] else REPLACEMENT;
      Associative(front, d.text, e.text);
    }
  }

  /** Valid input passes through untouched, so it never yields U+FFFD of its own. */
  lemma {:induction false} DecodeOfValid(s: seq<byte>)
    ensures Valid(s) ==> Decode(s) == Decoded(s, [])
    ensures Decode(s) == Decoded(s, []) ==> Lossy(s) == s
    decreases |s|
  {
    if Valid(s) && s != [] {
      var n := HeadOf(s).len;
      DecodeOfValid(s[n..]);
      assert s == s[..n] + s[n..];
    }
  }

  /** Whatever the input, the committed text is a well-formed string. */
  lemma {:induction false} DecodedTextIsValid(s: seq<byte>)
    ensures Valid(Decode(s).text)
    decreases |s|
  {
    if s != [] && !HeadOf(s).Incomplete? {
      var n := HeadOf(s).len;
      DecodedTextIsValid(s[n..]);
      if HeadOf(s).Scalar? {
        assert HeadOf(s[..n]) == Scalar(n);
        assert s[..n][n..] == [];
        ValidConcat(s[..n], Decode(s[n..]).text);
      } else {
        assert REPLACEMENT[3..] == [];
        ValidConcat(REPLACEMENT, Decode(s[n..]).text);
      }
    }
  }

  // --------------------------------------------- the standard's replacement rule

  /** Largest k <= n for which s[..k] begins a scalar, or 1 when there is none. */
  ghost function MaximalSubpart(s: seq<byte>, n: nat): (k: nat)
    requires 0 < n <= |s|
    ensures 0 < k <= n
  {
    if n == 1 || BeginsScalar(s[..n]) then n else MaximalSubpart(s, n - 1)
  }

  /** Section 3.9 of the Unicode Standard, without any mention of the validator:
      take the maximal subpart, keep it if it is a character, replace it if not. */
  ghost function ReplaceMaximalSubparts(s: seq<byte>): seq<byte>
    decreases |s|
  {
    if s == [] then []
    else
      var n := MaximalSubpart(s, |s|);
      (if IsScalar(s[..n]) then s[..n] else REPLACEMENT) + ReplaceMaximalSubparts(s[n..])
  }

  lemma {:induction false} MaximalSubpartIs(s: seq<byte>, n: nat, k: nat)
    requires 0 < k <= n <= |s|
    requires k > 1 ==> BeginsScalar(s[..k])
    requires forall j :: k < j <= n ==> !BeginsScalar(s[..j])
    ensures MaximalSubpart(s, n) == k
    decreases n
  {
    if k < n {
      MaximalSubpartIs(s, n - 1, k);
    }
  }

  /** The maximal subpart is what the validator consumes in one step. */
  lemma HeadIsMaximalSubpart(s: seq<byte>)
    requires |s| > 0
    ensures MaximalSubpart(s, |s|) == if HeadOf(s).Incomplete? then |s| else HeadOf(s).len
  {
    HeadMeansTable(s);
    var h := HeadOf(s);
    if h.Incomplete? {
      assert s[..|s|] == s;
      assert BeginsScalar(s);
    } else {
      if h.Scalar? {
        assert s[..h.len] + [] == s[..h.len];
        assert BeginsScalar(s[..h.len]);
        forall j | h.len < j <= |s| ensures !BeginsScalar(s[..j]) {
          BeginsIffFits(s[..j]);
        }
      }
      MaximalSubpartIs(s, |s|, h.len);
    }
  }

  /** Lossy decoding is exactly U+FFFD substitution of maximal subparts. */
  lemma {:induction false} LossyIsMaximalSubpartSubstitution(s: seq<byte>)
    ensures Lossy(s) == ReplaceMaximalSubparts(s)
    decreases |s|
  {
    if s != [] {
      HeadIsMaximalSubpart(s);
      HeadMeansTable(s);
      var h := HeadOf(s);
      if h.Incomplete? {
        assert s[..|s|] == s && s[|s|..] == [];
        assert !IsScalar(s);
        assert REPLACEMENT + [] == REPLACEMENT;
      } else {
        LossyIsMaximalSubpartSubstitution(s[h.len..]);
        var d := Decode(s[h.len..]);
        var front := if h.Scalar? then s[..h.len] else REPLACEMENT;
        var tail := if d.rest == [] then [] else REPLACEMENT;
        assert (front + d.text) + tail == front + (d.text + tail);
      }
    }
  }

  // ------------------------------------------------------------- str::from_utf8

  /** The two fields of `Utf8Error`. */
  datatype Utf8Check = Fine | Error(validUpTo: nat, errorLen: Option<nat>)

  function FromUtf8(s: seq<byte>): (r: Utf8Check)
    ensures r.Error? ==> r.validUpTo < |s|
    ensures r.Error? && r.errorLen.Some? ==> 0 < r.errorLen.value && r.validUpTo + r.errorLen.value <= |s|
    decreases |s|
  {
    if s == [] then Fine
    else match HeadOf(s)
      case Invalid(n) => Error(0, Some(n))
      case Incomplete => Error(0, None)
      case Scalar(n) =>
        match FromUtf8(s[n..])
        case Fine => Fine
        case Error(v, l) => Error(n + v, l)
  }

  /** What decoding still produces once the first v bytes have been committed. */
  function Resume(s: seq<byte>, v: nat, l: Option<nat>): Decoded
    requires v <= |s| && (l.Some? ==> v + l.value <= |s|)
  {
    match l
    case None => Decoded([], s[v..])
    case Some(n) => var d := Decode(s[v + n..]); Decoded(REPLACEMENT + d.text, d.rest)
  }

  /** The error says how decoding goes on from `valid_up_to`. */
  ghost predicate ErrorExplains(s: seq<byte>, v: nat, l: Option<nat>)
    requires v <= |s| && (l.Some? ==> v + l.value <= |s|)
  {
    var r := Resume(s, v, l);
    Decode(s) == Decoded(s[..v] + r.text, r.rest)
  }

  lemma SliceJoin(s: seq<byte>, n: nat, v: nat, t: seq<byte>)
    requires n + v <= |s|
    ensures s[..n] + (s[n..][..v] + t) == s[..n + v] + t
  {
    assert s[..n + v] == s[..n] + s[n..][..v];
  }

  lemma ResumeShift(s: seq<byte>, n: nat, v: nat, l: Option<nat>)
    requires n + v <= |s| && (l.Some? ==> n + v + l.value <= |s|)
    ensures Resume(s[n..], v, l) == Resume(s, n + v, l)
  {
    match l
    case None => assert s[n..][v..] == s[n + v..];
    case Some(k) => assert s[n..][v + k..] == s[n + v + k..];
  }

  lemma ErrorExplainsStep(s: seq<byte>, n: nat, v: nat, l: Option<nat>)
    requires |s| > 0 && HeadOf(s) == Scalar(n)
    requires n + v <= |s| && (l.Some? ==> n + v + l.value <= |s|)
    requires ErrorExplains(s[n..], v, l)
    ensures ErrorExplains(s, n + v, l)
  {
    ResumeShift(s, n, v, l);
    var r := Resume(s, n + v, l);
    SliceJoin(s, n, v, r.text);
    assert Decode(s).text == s[..n] + Decode(s[n..]).text;
  }

  lemma ValidStep(s: seq<byte>, n: nat, v: nat)
    requires |s| > 0 && HeadOf(s) == Scalar(n) && n + v <= |s| && Valid(s[n..][..v])
    ensures Valid(s[..n + v])
  {
    assert HeadOf(s[..n]) == Scalar(n) && s[..n][n..] == [];
    assert s[..n + v] == s[..n] + s[n..][..v];
    ValidConcat(s[..n], s[n..][..v]);
  }

  lemma {:induction false} FromUtf8Fine(s: seq<byte>)
    ensures FromUtf8(s).Fine? <==> Valid(s)
    decreases |s|
  {
    if s != [] && HeadOf(s).Scalar? {
      FromUtf8Fine(s[HeadOf(s).len..]);
    }
  }

  /** Not a character at the front: nothing is valid, and the error is the first step. */
  lemma FromUtf8FrontError(s: seq<byte>)
    requires s != [] && !HeadOf(s).Scalar?
    ensures var r := FromUtf8(s); r.Error? && r.validUpTo == 0 && ErrorExplains(s, 0, r.errorLen)
  {
    assert s[..0] == [] && s[0..] == s;
    var r := Resume(s, 0, FromUtf8(s).errorLen);
    assert [] + r.text == r.text;
  }

  /** `valid_up_to` ends the longest valid prefix, and decoding resumes after the error. */
  lemma {:induction false} FromUtf8Error(s: seq<byte>)
    requires FromUtf8(s).Error?
    ensures Valid(s[..FromUtf8(s).validUpTo])
    ensures ErrorExplains(s, FromUtf8(s).validUpTo, FromUtf8(s).errorLen)
    decreases |s|
  {
    if HeadOf(s).Scalar? {
      var n := HeadOf(s).len;
      FromUtf8Error(s[n..]);
      var r := FromUtf8(s[n..]);
      ErrorExplainsStep(s, n, r.validUpTo, r.errorLen);
      ValidStep(s, n, r.validUpTo);
    } else {
      FromUtf8FrontError(s);
    }
  }

  /** ... and no longer prefix is valid. */
  lemma {:induction false} ValidUpToIsLongest(s: seq<byte>, k: nat)
    requires FromUtf8(s).Error? && FromUtf8(s).validUpTo < k <= |s|
    ensures !Valid(s[..k])
    decreases |s|
  {
    var p := s[..k];
    assert s == p + s[k..];
    if HeadOf(p).Scalar? {
      HeadStable(p, s[k..]);
      var n := HeadOf(s).len;
      assert p[n..] == s[n..][..k - n];
      ValidUpToIsLongest(s[n..], k - n);
    }
  }
}
