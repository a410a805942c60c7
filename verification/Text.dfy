/** `str::trim` and `str::find` on byte strings. */
module Text {
  import opened Sequences
  import opened Utf8
  import opened Wrappers

  // ------------------------------------------------------------------- trimming

  /** The Unicode White_Space property. */
  predicate IsWhiteSpace(v: nat) {
    || 0x09 <= v <= 0x0D || v == 0x20 || v == 0x85 || v == 0xA0 || v == 0x1680 || 0x2000 <= v <= 0x200A
    || v == 0x2028 || v == 0x2029 || v == 0x202F || v == 0x205F || v == 0x3000
  }

  // The encodings of the characters with the Unicode White_Space property, by length.
  predicate IsSpace1(a: byte) {
    0x09 <= a <= 0x0D || a == 0x20
  }

  predicate IsSpace2(a: byte, b: byte) {
    a == 0xC2 && (b == 0x85 || b == 0xA0)
  }

  predicate IsSpace3(a: byte, b: byte, c: byte) {
    || (a == 0xE1 && b == 0x9A && c == 0x80)
    || (a == 0xE2 && b == 0x80 && (0x80 <= c <= 0x8A || c == 0xA8 || c == 0xA9 || c == 0xAF))
    || (a == 0xE2 && b == 0x81 && c == 0x9F)
    || (a == 0xE3 && b == 0x80 && c == 0x80)
  }

  /** Length of the white-space character s starts with, or 0. */
  function SpaceAtStart(s: seq<byte>): (n: nat)
    ensures n <= |s|
  {
    if |s| >= 1 && IsSpace1(s[0]) then 1
    else if |s| >= 2 && IsSpace2(s[0], s[1]) then 2
    else if |s| >= 3 && IsSpace3(s[0], s[1], s[2]) then 3
    else 0
  }

  /** Length of the white-space character s ends with, or 0. */
  function SpaceAtEnd(s: seq<byte>): (n: nat)
    ensures n <= |s|
  {
    var m := |s|;
    if m >= 1 && IsSpace1(s[m - 1]) then 1
    else if m >= 2 && IsSpace2(s[m - 2], s[m - 1]) then 2
    else if m >= 3 && IsSpace3(s[m - 3], s[m - 2], s[m - 1]) then 3
    else 0
  }

  function TrimStart(s: seq<byte>): (t: seq<byte>)
    ensures SpaceAtStart(t) == 0
    decreases |s|
  {
    var n := SpaceAtStart(s);
    if n == 0 then s else TrimStart(s[n..])
  }

  function TrimEnd(s: seq<byte>): (t: seq<byte>)
    ensures SpaceAtEnd(t) == 0
    decreases |s|
  {
    var n := SpaceAtEnd(s);
    if n == 0 then s else TrimEnd(s[..|s| - n])
  }

  function Trim(s: seq<byte>): seq<byte> {
    TrimEnd(TrimStart(s))
  }

  predicate IsSpaceBytes(e: seq<byte>) {
    (|e| == 1 && IsSpace1(e[0])) || (|e| == 2 && IsSpace2(e[0], e[1])) || (|e| == 3 && IsSpace3(e[0], e[1], e[2]))
  }

  lemma EncodedSpace(v: nat)
    requires IsWhiteSpace(v) && IsScalarValue(v)
    ensures IsSpaceBytes(Encode(v))
  {
  }

  /** What is recognised at either end is the encoding of a white-space character, and
      every such encoding is recognised. */
  lemma SpaceIsWhiteSpace(s: seq<byte>, v: nat)
    requires IsWhiteSpace(v) && IsScalarValue(v)
    ensures Encode(v) <= s ==> SpaceAtStart(s) == |Encode(v)|
    ensures var n := |Encode(v)|; n <= |s| && s[|s| - n..] == Encode(v) ==> SpaceAtEnd(s) == n
  {
    EncodedSpace(v);
    hide Encode, IsWhiteSpace, IsSpaceBytes, SpaceAtStart, SpaceAtEnd;
    var e := Encode(v);
    var n := |e|;
    if e <= s {
      StartsWithSpace(s, e);
    }
    if n <= |s| && s[|s| - n..] == e {
      EndsWithSpace(s, e);
    }
  }

  lemma StartsWithSpace(s: seq<byte>, e: seq<byte>)
    requires IsSpaceBytes(e) && e <= s
    ensures SpaceAtStart(s) == |e|
  {
    assert s[0] == e[0];
    if |e| >= 2 { assert s[1] == e[1]; }
    if |e| == 3 { assert s[2] == e[2]; }
  }

  lemma EndsWithSpace(s: seq<byte>, e: seq<byte>)
    requires IsSpaceBytes(e) && |e| <= |s| && s[|s| - |e|..] == e
    ensures SpaceAtEnd(s) == |e|
  {
    var m, end := |s|, s[|s| - |e|..];
    if |e| == 1 { assert s[m - 1] == end[0]; }
    else if |e| == 2 { assert s[m - 1] == end[1] && s[m - 2] == end[0]; }
    else { assert s[m - 1] == end[2] && s[m - 2] == end[1] && s[m - 3] == end[0]; }
  }

  lemma SpaceIsEncoding(s: seq<byte>) returns (v: nat, w: nat)
    ensures IsScalarValue(v) && IsScalarValue(w)
    ensures SpaceAtStart(s) > 0 ==> IsWhiteSpace(v) && s[..SpaceAtStart(s)] == Encode(v)
    ensures SpaceAtEnd(s) > 0 ==> IsWhiteSpace(w) && s[|s| - SpaceAtEnd(s)..] == Encode(w)
  {
    v, w := SpacePoint(s[..SpaceAtStart(s)]), SpacePoint(s[|s| - SpaceAtEnd(s)..]);
  }

  function SpacePoint(s: seq<byte>): (v: nat)
    ensures IsScalarValue(v)
    ensures IsSpaceBytes(s) ==> IsWhiteSpace(v) && s == Encode(v)
  {
    if IsScalar(s) then TableIsEncodings(s); CodePoint(s) else 0
  }

  /** s is a run of white-space characters. */
  predicate AllSpace(s: seq<byte>)
    decreases |s|
  {
    s == [] || (SpaceAtStart(s) > 0 && AllSpace(s[SpaceAtStart(s)..]))
  }

  lemma SpaceAtStartPrefix(a: seq<byte>, b: seq<byte>)
    requires SpaceAtStart(a) > 0
    ensures SpaceAtStart(a + b) == SpaceAtStart(a)
  {
    var s := a + b;
    assert s[0] == a[0];
    if |a| >= 2 { assert s[1] == a[1]; }
    if |a| >= 3 { assert s[2] == a[2]; }
  }

  lemma OneSpace(s: seq<byte>)
    ensures var n := SpaceAtStart(s); n > 0 ==> AllSpace(s[..n])
    ensures var n := SpaceAtEnd(s); n > 0 ==> AllSpace(s[|s| - n..])
  {
    var n := SpaceAtStart(s);
    var first := s[..n];
    assert n > 0 ==> SpaceAtStart(first) == n;
    assert first[n..] == [];
    var m := SpaceAtEnd(s);
    var last := s[|s| - m..];
    assert m > 0 ==> SpaceAtStart(last) == m;
    assert last[m..] == [];
  }

  lemma {:induction false} AllSpaceConcat(a: seq<byte>, b: seq<byte>)
    requires AllSpace(a) && AllSpace(b)
    ensures AllSpace(a + b)
    decreases |a|
  {
    hide SpaceAtStart;
    if a == [] {
      assert a + b == b;
    } else {
      var k := SpaceAtStart(a);
      AllSpaceConcat(a[k..], b);
      SpaceAtStartPrefix(a, b);
      assert (a + b)[k..] == a[k..] + b;
    }
  }

  lemma {:induction false} TrimStartDropsSpace(s: seq<byte>) returns (lead: seq<byte>)
    ensures s == lead + TrimStart(s) && AllSpace(lead)
    decreases |s|
  {
    hide SpaceAtStart;
    var n := SpaceAtStart(s);
    if n == 0 {
      lead := [];
    } else {
      var l := TrimStartDropsSpace(s[n..]);
      OneSpace(s);
      AllSpaceConcat(s[..n], l);
      lead := s[..n] + l;
      Rejoin(s, n);
      Associative(s[..n], l, TrimStart(s[n..]));
    }
  }

  lemma {:induction false} TrimEndDropsSpace(s: seq<byte>) returns (trail: seq<byte>)
    ensures s == TrimEnd(s) + trail && AllSpace(trail)
    decreases |s|
  {
    hide SpaceAtEnd, SpaceAtStart;
    var n := SpaceAtEnd(s);
    if n == 0 {
      trail := [];
    } else {
      var front, last := s[..|s| - n], s[|s| - n..];
      var t := TrimEndDropsSpace(front);
      OneSpace(s);
      AllSpaceConcat(t, last);
      trail := t + last;
      Rejoin(s, |s| - n);
      Associative(TrimEnd(front), t, last);
    }
  }

  /** Trimming removes white space from the two ends, all of it, and nothing else. */
  lemma TrimRemovesOuterSpace(s: seq<byte>) returns (lead: seq<byte>, trail: seq<byte>)
    ensures s == lead + Trim(s) + trail
    ensures AllSpace(lead) && AllSpace(trail)
    ensures SpaceAtStart(Trim(s)) == 0 && SpaceAtEnd(Trim(s)) == 0
  {
    lead := TrimStartDropsSpace(s);
    var core := TrimStart(s);
    trail := TrimEndDropsSpace(core);
    Associative(lead, Trim(s), trail);
    if SpaceAtStart(Trim(s)) > 0 {
      SpaceAtStartPrefix(Trim(s), trail);
    }
  }

  lemma {:induction false} TrimStartOfSpace(s: seq<byte>)
    requires AllSpace(s)
    ensures TrimStart(s) == []
    decreases |s|
  {
    if s != [] {
      TrimStartOfSpace(s[SpaceAtStart(s)..]);
    }
  }

  /** Nothing is left exactly when there was nothing but white space. */
  lemma TrimmedAway(s: seq<byte>)
    ensures Trim(s) == [] <==> AllSpace(s)
  {
    if AllSpace(s) {
      TrimStartOfSpace(s);
    } else {
      var lead, trail := TrimRemovesOuterSpace(s);
      if Trim(s) == [] {
        assert lead + [] == lead;
        AllSpaceConcat(lead, trail);
      }
    }
  }

  // ------------------------------------------------------------------ searching

  predicate OccursAt(s: seq<byte>, needle: seq<byte>, i: nat) {
    i + |needle| <= |s| && s[i..i + |needle|] == needle
  }

  /** `str::find`: the first position of needle. */
  function Find(s: seq<byte>, needle: seq<byte>): (r: Option<nat>)
    ensures r.Some? ==> OccursAt(s, needle, r.value) && forall j :: 0 <= j < r.value ==> !OccursAt(s, needle, j)
    ensures r.None? ==> forall j: nat :: !OccursAt(s, needle, j)
  {
    FindFrom(s, needle, 0)
  }

  function FindFrom(s: seq<byte>, needle: seq<byte>, i: nat): (r: Option<nat>)
    requires i <= |s|
    ensures r.Some? ==> i <= r.value && OccursAt(s, needle, r.value) && forall j :: i <= j < r.value ==> !OccursAt(s, needle, j)
    ensures r.None? ==> forall j :: i <= j ==> !OccursAt(s, needle, j)
    decreases |s| - i
  {
    if i + |needle| > |s| then None
    else if s[i..i + |needle|] == needle then Some(i)
    else if i == |s| then None
    else FindFrom(s, needle, i + 1)
  }
}
