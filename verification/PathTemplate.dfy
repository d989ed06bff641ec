/** Path templates of internal/server/pathtemplate.go. Parameter values are the
    already formatted strings. */
module PathTemplate {
  import opened Strings

  // ----- percent escapes

  predicate IsHex(c: char) {
    '0' <= c <= '9' || 'a' <= c <= 'f' || 'A' <= c <= 'F'
  }

  function Unhex(c: char): (n: nat)
    requires IsHex(c)
    ensures n < 16
  {
    if c <= '9' then c as int - '0' as int
    else if c <= 'F' then c as int - 'A' as int + 10
    else c as int - 'a' as int + 10
  }

  function Decoded(hi: char, lo: char): (c: char)
    requires IsHex(hi) && IsHex(lo)
  {
    (Unhex(hi) * 16 + Unhex(lo)) as char
  }

  predicate IsControl(c: char) { c < '\U{20}' || c == '\U{7f}' }

  predicate Unsafe(c: char) { IsControl(c) || c in "/\\.?#;" }

  predicate EscapeAt(s: string, i: nat) {
    i + 2 < |s| && s[i] == '%' && IsHex(s[i + 1]) && IsHex(s[i + 2])
  }

  /** hasUnsafeEscape: some "%" starts no escape, or the escape of an unsafe byte. */
  predicate UnsafeEscape(s: string) {
    if s == "" then false
    else if s[0] != '%' then UnsafeEscape(s[1..])
    else !EscapeAt(s, 0) || Unsafe(Decoded(s[1], s[2])) || UnsafeEscape(s[3..])
  }

  method HasUnsafeEscape(s: string) returns (r: bool)
    ensures r == UnsafeEscape(s)
  {
    var i := 0;
    while i < |s|
      invariant 0 <= i <= |s| && UnsafeEscape(s) == UnsafeEscape(s[i..])
    {
      if s[i] != '%' {
        assert s[i..][1..] == s[i + 1..];
        i := i + 1;
        continue;
      }
      if i + 2 >= |s| || !IsHex(s[i + 1]) || !IsHex(s[i + 2]) { return true; }
      var b := Decoded(s[i + 1], s[i + 2]);
      if IsControl(b) || b in "/\\.?#;" { return true; }
      assert s[i..][3..] == s[i + 3..];
      i := i + 3;
    }
    return false;
  }

  /** Percent-decoding, section 2.1 of RFC 3986. */
  function Decode(s: string): Option<string> {
    if s == "" then Some("")
    else if s[0] != '%' then Prepend(s[0], Decode(s[1..]))
    else if !EscapeAt(s, 0) then None
    else Prepend(Decoded(s[1], s[2]), Decode(s[3..]))
  }

  function Prepend(c: char, s: Option<string>): Option<string> {
    if s.None? then None else Some([c] + s.value)
  }

  // ----- path segments

  function Segments(s: string): (r: seq<string>)
    ensures |r| > 0
  {
    if s == "" then [""]
    else
      var r := Segments(s[1..]);
      if s[0] == '/' then [""] + r else [[s[0]] + r[0]] + r[1..]
  }

  predicate BadSegment(seg: string) { seg == "" || seg == "." }

  /** hasPathInjection. */
  predicate PathInjection(s: string, multi: bool) {
    || Contains(s, "..")
    || (exists i :: 0 <= i < |s| && s[i] in "?#\\")
    || ('%' in s && (!multi || UnsafeEscape(s)))
    || (!multi && '/' in s)
    || (multi && exists i :: 0 <= i < |Segments(s)| && BadSegment(Segments(s)[i]))
    || (exists i :: 0 <= i < |s| && IsControl(s[i]))
  }

  method ContainsAny(s: string, chars: string) returns (r: bool)
    ensures r == exists i :: 0 <= i < |s| && s[i] in chars
  {
    for n := 0 to |s|
      invariant forall i :: 0 <= i < n ==> s[i] !in chars
    {
      if s[n] in chars { return true; }
    }
    return false;
  }

  method HasPathInjection(s: string, multi: bool) returns (r: bool)
    ensures r == PathInjection(s, multi)
  {
    var any := ContainsAny(s, "?#\\");
    if Contains(s, "..") || any { return true; }
    if '%' in s {
      if !multi { return true; }
      var bad := HasUnsafeEscape(s);
      if bad { return true; }
    }
    if !multi && '/' in s { return true; }
    if multi {
      var segs := Segments(s);
      for n := 0 to |segs|
        invariant forall i :: 0 <= i < n ==> !BadSegment(segs[i])
      {
        if segs[n] == "" || segs[n] == "." { return true; }
      }
    }
    for n := 0 to |s|
      invariant forall i :: 0 <= i < n ==> !IsControl(s[i])
    {
      if IsControl(s[n]) { return true; }
    }
    return false;
  }

  // ----- accepted multi-segment values

  /** First token of a value without unsafe escapes: its length and decoded byte. */
  function TokenLength(s: string): nat
    requires s != ""
  {
    if s[0] == '%' then 3 else 1
  }

  function TokenByte(s: string): char
    requires s != "" && !UnsafeEscape(s)
  {
    if s[0] == '%' then Decoded(s[1], s[2]) else s[0]
  }

  lemma TokenFacts(s: string)
    requires s != "" && !UnsafeEscape(s)
    ensures var n := TokenLength(s);
      && n <= |s| && !UnsafeEscape(s[n..])
      && Decode(s) == Prepend(TokenByte(s), Decode(s[n..]))
      && (TokenByte(s) == '/' <==> s[0] == '/')
      && (TokenByte(s) == '.' <==> s[0] == '.')
      && (forall i :: 0 < i < n ==> s[i] != '/' && s[i] != '.')
  {
    hide Unsafe, IsHex, Decoded, UnsafeEscape, Decode;
    SeparatorsAreUnsafe();
    SafeStep(s);
    DecodeStep(s);
    if s[0] == '%' {
      HexIsNoSeparator(s[1]);
      HexIsNoSeparator(s[2]);
    }
  }

  lemma SafeStep(s: string)
    requires s != "" && !UnsafeEscape(s)
    ensures s[0] == '%' ==> EscapeAt(s, 0) && !Unsafe(Decoded(s[1], s[2])) && !UnsafeEscape(s[3..])
    ensures s[0] != '%' ==> !UnsafeEscape(s[1..])
  {
  }

  lemma DecodeStep(s: string)
    requires s != ""
    ensures s[0] != '%' ==> Decode(s) == Prepend(s[0], Decode(s[1..]))
    ensures EscapeAt(s, 0) ==> Decode(s) == Prepend(Decoded(s[1], s[2]), Decode(s[3..]))
  {
  }

  lemma SeparatorsAreUnsafe()
    ensures Unsafe('/') && Unsafe('.')
  {
  }

  lemma HexIsNoSeparator(c: char)
    requires IsHex(c)
    ensures c != '/' && c != '.'
  {
  }

  lemma {:induction false} SafeDecodes(s: string)
    requires !UnsafeEscape(s)
    ensures Decode(s).Some?
    decreases |s|
  {
    if s != "" {
      hide UnsafeEscape, Decode;
      TokenFacts(s);
      SafeDecodes(s[TokenLength(s)..]);
    }
  }

  function Join(seg: string, rest: seq<string>): seq<string>
    requires rest != []
  {
    [seg + rest[0]] + rest[1..]
  }

  lemma {:induction false} SegmentsPrefix(a: string, b: string)
    requires '/' !in a
    ensures Segments(a + b) == Join(a, Segments(b))
  {
    if a == "" {
      assert a + b == b && a + Segments(b)[0] == Segments(b)[0];
    } else {
      assert (a + b)[1..] == a[1..] + b;
      SegmentsPrefix(a[1..], b);
      assert [a[0]] + (a[1..] + Segments(b)[0]) == a + Segments(b)[0];
    }
  }

  lemma SegmentsSlash(b: string)
    ensures Segments("/" + b) == [""] + Segments(b)
  {
  }

  /** Each segment decodes to the segment of the decoded value. */
  ghost predicate DecodeEach(raw: seq<string>, dec: seq<string>) {
    |raw| == |dec| && forall i :: 0 <= i < |raw| ==> Decode(raw[i]) == Some(dec[i])
  }

  lemma DecodeToken(s: string, n: nat, rest: string)
    requires s != "" && !UnsafeEscape(s) && n == TokenLength(s)
    ensures n <= |s| && Decode(s[..n] + rest) == Prepend(TokenByte(s), Decode(rest))
  {
  }

  /** Splitting on "/" and percent-decoding commute. */
  lemma {:induction false} DecodeCommutesWithSplit(s: string)
    requires !UnsafeEscape(s)
    ensures Decode(s).Some? && DecodeEach(Segments(s), Segments(Decode(s).value))
    decreases |s|
  {
    SafeDecodes(s);
    if s != "" {
      hide UnsafeEscape, Decode, Segments, TokenByte, TokenLength;
      StepOfSplit(s);
    }
  }

  lemma {:induction false} StepOfSplit(s: string)
    requires s != "" && !UnsafeEscape(s) && Decode(s).Some?
    ensures DecodeEach(Segments(s), Segments(Decode(s).value))
    decreases |s|, 0
  {
    hide UnsafeEscape, Decode, Segments, TokenByte;
    TokenFacts(s);
    var n, c := TokenLength(s), TokenByte(s);
    var rest := s[n..];
    DecodeCommutesWithSplit(rest);
    var d := Decode(rest).value;
    assert s == s[..n] + rest;
    if c == '/' {
      assert s[..n] == "/";
      SegmentsSlash(rest);
      SegmentsSlash(d);
      DecodeEmpty();
    } else {
      assert '/' !in s[..n];
      SegmentsPrefix(s[..n], rest);
      SegmentsPrefix([c], d);
      DecodeToken(s, n, Segments(rest)[0]);
    }
  }

  lemma DecodeEmpty()
    ensures Decode("") == Some("")
  {
  }

  ghost predicate HasDots(s: string) { exists i :: 0 <= i < |s| - 1 && DotsAt(s, i) }

  predicate DotsAt(s: string, i: nat) { i + 1 < |s| && s[i] == '.' && s[i + 1] == '.' }

  lemma DotsAreContained(s: string)
    ensures Contains(s, "..") <==> HasDots(s)
  {
    forall i: nat | i < |s| ensures ContainsAt(s, "..", i) <==> DotsAt(s, i) {
      if DotsAt(s, i) { assert s[i..i + 2] == ".."; }
      if ContainsAt(s, "..", i) { assert s[i] == s[i..i + 2][0] && s[i + 1] == s[i..i + 2][1]; }
    }
    if Contains(s, "..") {
      var i :| 0 <= i <= |s| && ContainsAt(s, "..", i);
      assert DotsAt(s, i);
    }
  }

  /** Decoding creates no "..". */
  lemma {:induction false} DecodeMakesNoDots(s: string)
    requires !UnsafeEscape(s) && !HasDots(s) && Decode(s).Some?
    ensures !HasDots(Decode(s).value)
    ensures |Decode(s).value| > 0 <==> |s| > 0
    ensures s != "" ==> (Decode(s).value[0] == '.' <==> s[0] == '.')
    decreases |s|
  {
    if s == "" {
    } else {
      hide UnsafeEscape, Decode, TokenByte;
      TokenFacts(s);
      var n := TokenLength(s);
      var rest := s[n..];
      SafeDecodes(rest);
      forall i | 0 <= i < |rest| - 1 ensures !DotsAt(rest, i) {
        assert !DotsAt(s, n + i);
      }
      DecodeMakesNoDots(rest);
      var d, e := Decode(rest).value, Decode(s).value;
      assert e == [TokenByte(s)] + d;
      forall i | 0 <= i < |e| - 1 ensures !DotsAt(e, i) {
        if i == 0 { assert !DotsAt(s, 0); } else { assert !DotsAt(d, i - 1); }
      }
    }
  }

  lemma {:induction false} SegmentDots(s: string, k: nat)
    requires !HasDots(s) && k < |Segments(s)|
    ensures !HasDots(Segments(s)[k])
    ensures Segments(s)[0] != "" ==> s != "" && Segments(s)[0][0] == s[0]
    decreases |s|
  {
    if s != "" {
      var rest := s[1..];
      forall i | 0 <= i < |rest| - 1 ensures !DotsAt(rest, i) { assert !DotsAt(s, i + 1); }
      var g := Segments(rest);
      if s[0] == '/' {
        SegmentDots(rest, if k == 0 then 0 else k - 1);
      } else {
        SegmentDots(rest, k);
        if k == 0 {
          assert !DotsAt(s, 0);
          forall i | 0 <= i < |[s[0]] + g[0]| - 1 ensures !DotsAt([s[0]] + g[0], i) {
            if i > 0 { assert !DotsAt(g[0], i - 1); }
          }
        }
      }
    }
  }

  lemma {:induction false} NoEscapes(s: string)
    requires '%' !in s
    ensures !UnsafeEscape(s) && Decode(s) == Some(s)
  {
    if s != "" {
      NoEscapes(s[1..]);
      assert [s[0]] + s[1..] == s;
    }
  }

  /** Of a segment that is neither empty nor ".", neither is the decoded form. */
  lemma DecodedSegment(seg: string, dec: string)
    requires !UnsafeEscape(seg) && Decode(seg) == Some(dec) && !HasDots(seg)
    requires !BadSegment(seg)
    ensures !BadSegment(dec)
  {
  }

  lemma {:induction false} SegmentsSafe(s: string, k: nat)
    requires !UnsafeEscape(s) && k < |Segments(s)|
    ensures !UnsafeEscape(Segments(s)[k])
    decreases |s|
  {
    if s != "" {
      hide UnsafeEscape, Segments, TokenByte, Decode;
      TokenFacts(s);
      var n := TokenLength(s);
      var rest := s[n..];
      assert s == s[..n] + rest;
      if s[0] == '/' {
        assert s[..n] == "/";
        SegmentsSlash(rest);
        if k > 0 { SegmentsSafe(rest, k - 1); } else { EmptySafe(); }
      } else {
        SegmentsPrefix(s[..n], rest);
        SegmentsSafe(rest, k);
        SafeToken(s, Segments(rest)[0]);
      }
    }
  }

  lemma EmptySafe()
    ensures !UnsafeEscape("")
  {
  }

  lemma SafeToken(s: string, rest: string)
    requires s != "" && !UnsafeEscape(s)
    ensures TokenLength(s) <= |s|
    ensures UnsafeEscape(s[..TokenLength(s)] + rest) == UnsafeEscape(rest)
  {
  }

  /** An accepted multi-segment value: the server that decodes first and the one
      that splits first see the same segments, none empty, "." or with "..". */
  lemma AcceptedMultiSegment(s: string)
    requires !PathInjection(s, true)
    ensures Decode(s).Some?
    ensures DecodeEach(Segments(s), Segments(Decode(s).value))
    ensures forall k :: 0 <= k < |Segments(Decode(s).value)| ==>
      var seg := Segments(Decode(s).value)[k]; seg != "" && seg != "." && !Contains(seg, "..")
  {
    hide UnsafeEscape, Decode, Segments, Contains;
    if '%' !in s { NoEscapes(s); }
    assert !UnsafeEscape(s);
    DecodeCommutesWithSplit(s);
    var d := Decode(s).value;
    DotsAreContained(s);
    DecodeMakesNoDots(s);
    forall k | 0 <= k < |Segments(d)|
      ensures var seg := Segments(d)[k]; seg != "" && seg != "." && !Contains(seg, "..")
    {
      SegmentDots(s, k);
      SegmentDots(d, k);
      SegmentsSafe(s, k);
      DecodedSegment(Segments(s)[k], Segments(d)[k]);
      DotsAreContained(Segments(d)[k]);
    }
  }
}
