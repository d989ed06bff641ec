/** How a parameter value arrives in an expanded path, and which placeholders are
    filled in (internal/server/pathtemplate.go). */
module PathValues {
  import opened Strings
  import opened PathTemplate
  import opened PathExpansion

  // ----- query values

  /** Form decoding: percent-decoding with "+" read as a space. */
  function FormDecode(s: string): Option<string> {
    if s == "" then Some("")
    else if s[0] == '+' then Prepend(' ', FormDecode(s[1..]))
    else if s[0] != '%' then Prepend(s[0], FormDecode(s[1..]))
    else if !EscapeAt(s, 0) then None
    else Prepend(Decoded(s[1], s[2]), FormDecode(s[3..]))
  }

  predicate Bytes(s: string) { forall i :: 0 <= i < |s| ==> s[i] as int < 256 }

  lemma FormStep(s: string)
    requires s != ""
    ensures s[0] == '+' ==> FormDecode(s) == Prepend(' ', FormDecode(s[1..]))
    ensures s[0] != '+' && s[0] != '%' ==> FormDecode(s) == Prepend(s[0], FormDecode(s[1..]))
    ensures EscapeAt(s, 0) ==> FormDecode(s) == Prepend(Decoded(s[1], s[2]), FormDecode(s[3..]))
  {
  }

  /** A query-escaped value decodes to itself. */
  lemma {:induction false} QueryEscapeRoundTrip(s: string)
    requires Bytes(s)
    ensures FormDecode(QueryEscape(s)) == Some(s)
  {
    if s != "" {
      hide FormDecode, IsHex, Unhex, HexDigit;
      QueryEscapeRoundTrip(s[1..]);
      var e, rest := QueryByte(s[0]), QueryEscape(s[1..]);
      FormStep(e + rest);
      if |e| == 1 {
        assert (e + rest)[1..] == rest && e[0] != '%';
      } else {
        assert (e + rest)[3..] == rest && EscapeAt(e + rest, 0);
        EscapedDecodes(s[0]);
      }
      assert [s[0]] + s[1..] == s;
    }
  }

  /** Letters, digits and -_.~ are never escaped. */
  lemma {:induction false} PlainStaysPlain(s: string)
    requires forall i :: 0 <= i < |s| ==>
      'a' <= s[i] <= 'z' || 'A' <= s[i] <= 'Z' || '0' <= s[i] <= '9' || s[i] in {'-', '_', '.', '~'}
    ensures PathEscape(s) == s && QueryEscape(s) == s
  {
    if s != "" {
      PlainStaysPlain(s[1..]);
      assert [s[0]] + s[1..] == s;
    }
  }

  /** Sixteen digits, the letters in either case. */
  lemma HexMeans(c: char)
    ensures IsHex(c) <==> c in "0123456789abcdef" || c in "0123456789ABCDEF"
    ensures IsHex(c) ==> c == "0123456789abcdef"[Unhex(c)] || c == "0123456789ABCDEF"[Unhex(c)]
  {
    var low, up := "0123456789abcdef", "0123456789ABCDEF";
    assert forall n :: 0 <= n < 10 ==> low[n] as int == up[n] as int == '0' as int + n;
    assert forall n :: 10 <= n < 16 ==> low[n] as int == 'a' as int + n - 10 && up[n] as int == 'A' as int + n - 10;
    if IsHex(c) { assert c == low[Unhex(c)] || c == up[Unhex(c)]; }
  }

  predicate Quiet(c: char) {
    'a' <= c <= 'z' || 'A' <= c <= 'Z' || '0' <= c <= '9' || c in {'-', '_', '.', '~', '%'}
  }

  /** Nothing but letters, digits, -_.~ and the escapes comes out; in a query also "+", in a
      path also six of the marks that section 3.3 of RFC 3986 lets stand. */
  lemma {:induction false} EscapesAreQuiet(s: string)
    ensures forall i :: 0 <= i < |QueryEscape(s)| ==> Quiet(QueryEscape(s)[i]) || QueryEscape(s)[i] == '+'
    ensures forall i :: 0 <= i < |PathEscape(s)| ==>
      Quiet(PathEscape(s)[i]) || PathEscape(s)[i] in {'$', '&', '+', '=', ':', '@'}
  {
    if s != "" {
      hide HexDigit;
      EscapesAreQuiet(s[1..]);
      EscapedIs(s[0]);
    }
  }

  /** An escape is "%" and two digits, the letters upper-case. */
  lemma EscapedIs(c: char)
    ensures var e := Escaped(c);
      && e[0] == '%' && |e| == 3
      && forall i :: 1 <= i <= 2 ==> '0' <= e[i] <= '9' || 'A' <= e[i] <= 'F'
  {
  }

  // ----- every value of an expansion

  /** The placeholder is a parameter's, and no site value's. */
  predicate IsParam(t: string, h: Hole, env: Env)
    requires h.start < h.end - 2 < |t| - 1
  {
    Name(t, h) !in env.site && Key(Name(t, h)) in env.params
  }

  /** The key of a placeholder: its name, without a final "|urlencode". */
  lemma KeyIs(name: string)
    ensures HasSuffix(name, "|urlencode") ==> name == Key(name) + "|urlencode"
    ensures !HasSuffix(name, "|urlencode") ==> name == Key(name)
  {
  }

  /** Where a query is being written x form-decodes to v, urlencoded elsewhere it
      percent-decodes to v, and raw it is v. */
  ghost predicate Arrives(t: string, h: Hole, v: string, x: string)
    requires h.start < h.end - 2 < |t| - 1
  {
    var before, encode := t[..h.start], HasSuffix(Name(t, h), "|urlencode");
    if HasSuffix(before, "?path=") || HasSuffix(before, "&path=") || (encode && '?' in before) then
      FormDecode(x) == Some(v)
    else if encode then Decode(x) == Some(v)
    else x == v
  }

  lemma ValueArrives(t: string, h: Hole, env: Env)
    requires h.start < h.end - 2 < |t| - 1 && IsParam(t, h, env) && Subst(t, h, env).Some?
    requires Bytes(env.params[Key(Name(t, h))])
    ensures Arrives(t, h, env.params[Key(Name(t, h))], Subst(t, h, env).value)
  {
    hide PathInjection, Decode, FormDecode, QueryEscape, PathEscape;
    var v := env.params[Key(Name(t, h))];
    QueryEscapeRoundTrip(v);
    PathEscapeRoundTrip(v);
  }

  lemma PiecesStep(t: string, last: nat, hs: seq<Hole>, env: Env)
    requires InOrder(t, last, hs) && hs != [] && Pieces(t, last, hs, env).Some?
    ensures Subst(t, hs[0], env).Some? && Pieces(t, hs[0].end, hs[1..], env).Some?
    ensures Pieces(t, last, hs, env).value ==
      [t[last..hs[0].start], Subst(t, hs[0], env).value] + Pieces(t, hs[0].end, hs[1..], env).value
  {
    hide Subst;
  }

  /** Every parameter value arrives as it was sent. */
  lemma {:induction false} ValuesArrive(t: string, last: nat, hs: seq<Hole>, env: Env, i: nat)
    requires InOrder(t, last, hs) && i < |hs| && Pieces(t, last, hs, env).Some?
    requires hs[i].start < hs[i].end - 2 < |t| - 1 && IsParam(t, hs[i], env)
    requires Bytes(env.params[Key(Name(t, hs[i]))])
    ensures 2 * i + 1 < |Pieces(t, last, hs, env).value|
    ensures Arrives(t, hs[i], env.params[Key(Name(t, hs[i]))], Pieces(t, last, hs, env).value[2 * i + 1])
    decreases |hs|
  {
    hide Pieces, Subst, Arrives, IsParam;
    PiecesStep(t, last, hs, env);
    if i == 0 {
      ValueArrives(t, hs[0], env);
    } else {
      assert hs[1..][i - 1] == hs[i];
      ValuesArrive(t, hs[0].end, hs[1..], env, i - 1);
    }
  }

  /** A site value enters as it is, a placeholder that names nothing stays, and so does the
      text before each placeholder. */
  lemma {:induction false} TheRestStays(t: string, last: nat, hs: seq<Hole>, env: Env, i: nat)
    requires InOrder(t, last, hs) && i < |hs| && Pieces(t, last, hs, env).Some?
    requires hs[i].start < hs[i].end - 2 < |t| - 1
    ensures var ps, name := Pieces(t, last, hs, env).value, Name(t, hs[i]);
      && 2 * i + 1 < |ps|
      && (name in env.site ==> ps[2 * i + 1] == env.site[name])
      && (name !in env.site && Key(name) !in env.params ==> ps[2 * i + 1] == t[hs[i].start..hs[i].end])
      && (if i == 0 then last else hs[i - 1].end) <= hs[i].start
      && ps[2 * i] == t[(if i == 0 then last else hs[i - 1].end)..hs[i].start]
    decreases |hs|
  {
    hide Pieces, Value;
    PiecesStep(t, last, hs, env);
    if i > 0 {
      assert hs[1..][i - 1] == hs[i];
      assert i > 1 ==> hs[1..][i - 2] == hs[i - 1];
      TheRestStays(t, hs[0].end, hs[1..], env, i - 1);
    }
  }

  /** A parameter value that an expansion refuses: escaped outside a query it is a dot or two,
      raw it breaks out of its place. */
  ghost predicate Refuses(t: string, h: Hole, env: Env)
    requires h.start < h.end - 2 < |t| - 1
  {
    var before, encode := t[..h.start], HasSuffix(Name(t, h), "|urlencode");
    && IsParam(t, h, env)
    && var v := env.params[Key(Name(t, h))];
    && !HasSuffix(before, "?path=") && !HasSuffix(before, "&path=") && !(encode && '?' in before)
    && if encode then v == "." || v == ".."
       else
         || PathInjection(v, Key(Name(t, h)) in env.multi) || ';' in v
         || ('?' in before && ('&' in v || '=' in v || '+' in v))
  }

  lemma SubstRefuses(t: string, h: Hole, env: Env)
    requires h.start < h.end - 2 < |t| - 1
    ensures Subst(t, h, env).None? <==> Refuses(t, h, env)
  {
    hide PathInjection, PathEscape, QueryEscape;
    var marks := "&=+";
    assert marks == ['&', '=', '+'];
  }

  ghost predicate RefusesAt(t: string, hs: seq<Hole>, env: Env, i: nat) {
    i < |hs| && hs[i].start < hs[i].end - 2 < |t| - 1 && Refuses(t, hs[i], env)
  }

  /** An expansion is refused exactly for such a value. */
  lemma {:induction false} ExpansionRefused(t: string, last: nat, hs: seq<Hole>, env: Env)
    requires InOrder(t, last, hs)
    ensures Pieces(t, last, hs, env).None? <==> exists i: nat :: RefusesAt(t, hs, env, i)
    decreases |hs|
  {
    hide Refuses, Subst;
    if hs != [] {
      SubstRefuses(t, hs[0], env);
      ExpansionRefused(t, hs[0].end, hs[1..], env);
      forall i: nat ensures RefusesAt(t, hs[1..], env, i) <==> RefusesAt(t, hs, env, i + 1) {}
      if i: nat :| RefusesAt(t, hs, env, i) {
        assert i > 0 ==> RefusesAt(t, hs[1..], env, i - 1);
        assert i == 0 ==> Refuses(t, hs[0], env);
      }
      if i: nat :| RefusesAt(t, hs[1..], env, i) { assert RefusesAt(t, hs, env, i + 1); }
      if Refuses(t, hs[0], env) { assert RefusesAt(t, hs, env, 0); }
    }
  }

  // ----- which placeholders there are

  /** A non-empty name without braces, in braces. */
  ghost predicate Placeholder(t: string, h: Hole) {
    && h.start + 2 < h.end <= |t| && t[h.start] == '{' && t[h.end - 1] == '}'
    && forall i :: h.start < i < h.end - 1 ==> t[i] != '{' && t[i] != '}'
  }

  lemma {:induction false} NameEndIs(t: string, i: nat)
    requires i <= |t|
    ensures var e := NameEnd(t, i);
      (forall k :: i <= k < e ==> !IsBrace(t[k])) && (e < |t| ==> IsBrace(t[e]))
    decreases |t| - i
  {
    if i < |t| && !IsBrace(t[i]) { NameEndIs(t, i + 1); }
  }

  /** The placeholders filled in are exactly those the template has. */
  lemma {:induction false} HolesAre(t: string, i: nat, h: Hole)
    requires i <= |t|
    ensures h in Holes(t, i) <==> i <= h.start && Placeholder(t, h)
    decreases |t| - i
  {
    if i < |t| {
      var e := NameEnd(t, i + 1);
      NameEndIs(t, i + 1);
      if t[i] == '{' && i + 1 < e < |t| && t[e] == '}' {
        HolesAre(t, e + 1, h);
        PlaceholderFrom(t, i, e, h);
      } else {
        HolesAre(t, i + 1, h);
        NoPlaceholderFrom(t, i, e, h);
      }
    }
  }

  lemma PlaceholderFrom(t: string, i: nat, e: nat, h: Hole)
    requires i + 1 < e < |t| && t[i] == '{' && t[e] == '}' && forall k :: i < k < e ==> !IsBrace(t[k])
    ensures Placeholder(t, h) && i <= h.start <= e ==> h == Hole(i, e + 1)
    ensures Placeholder(t, Hole(i, e + 1))
  {
  }

  lemma NoPlaceholderFrom(t: string, i: nat, e: nat, h: Hole)
    requires i < |t| && i < e <= |t| && !(t[i] == '{' && i + 1 < e < |t| && t[e] == '}')
    requires (forall k :: i < k < e ==> !IsBrace(t[k])) && (e < |t| ==> IsBrace(t[e]))
    ensures Placeholder(t, h) ==> h.start != i
  {
  }

  // ----- accepted multi-segment values

  /** Decoded, an accepted multi-segment value has no control character, backslash, "?" or
      "#", and a ";" only where the value itself has one. */
  lemma {:induction false} DecodedIsHarmless(s: string)
    requires !UnsafeEscape(s) && Decode(s).Some?
    requires forall i :: 0 <= i < |s| ==> !Harmful(s[i])
    ensures var d := Decode(s).value;
      (forall i :: 0 <= i < |d| ==> !Harmful(d[i])) && (';' in d ==> ';' in s)
    decreases |s|
  {
    if s != "" {
      hide UnsafeEscape, Decode, Harmful;
      SafeStep(s);
      TokenFacts(s);
      var n := TokenLength(s);
      SafeDecodes(s[n..]);
      DecodedIsHarmless(s[n..]);
      TokenIsHarmless(s);
      assert Decode(s).value == [TokenByte(s)] + Decode(s[n..]).value;
    }
  }

  predicate Harmful(c: char) { c < '\U{20}' || c == '\U{7f}' || c == '\\' || c == '?' || c == '#' }

  lemma TokenIsHarmless(s: string)
    requires s != "" && !UnsafeEscape(s) && !Harmful(s[0])
    ensures !Harmful(TokenByte(s)) && (TokenByte(s) == ';' ==> s[0] == ';')
  {
    SafeStep(s);
    var marks := "/\\.?#;";
    assert marks[1] == '\\' && marks[3] == '?' && marks[4] == '#' && marks[5] == ';';
  }

  /** So is it for the values themselves. */
  lemma AcceptedIsHarmless(s: string)
    requires !PathInjection(s, true)
    ensures Decode(s).Some? && forall i :: 0 <= i < |Decode(s).value| ==> !Harmful(Decode(s).value[i])
    ensures ';' in Decode(s).value ==> ';' in s
  {
    hide UnsafeEscape, Decode, Segments, Contains;
    if '%' !in s { NoEscapes(s); }
    SafeDecodes(s);
    var marks := "?#\\";
    assert marks[0] == '?' && marks[1] == '#' && marks[2] == '\\';
    assert forall i :: 0 <= i < |s| ==> s[i] !in marks && !IsControl(s[i]);
    assert forall i :: 0 <= i < |s| ==> !Harmful(s[i]);
    DecodedIsHarmless(s);
  }

  /** Segments are what "/" separates: put together again they are the path, and none
      has a "/". */
  lemma {:induction false} SegmentsRejoin(s: string)
    ensures Rejoined(Segments(s)) == s && forall k :: 0 <= k < |Segments(s)| ==> '/' !in Segments(s)[k]
  {
    if s != "" {
      SegmentsRejoin(s[1..]);
      var r := Segments(s[1..]);
      assert s == [s[0]] + s[1..];
      if s[0] == '/' { assert Segments(s)[1..] == r; } else { assert Segments(s)[1..] == r[1..]; }
    }
  }

  function Rejoined(segs: seq<string>): string
    requires segs != []
  {
    if |segs| == 1 then segs[0] else segs[0] + "/" + Rejoined(segs[1..])
  }

  // ----- which values are accepted

  /** A byte that may stand in a value: no control character, "?", "#" or backslash. */
  predicate Plain(c: char) { '\U{20}' <= c && c != '\U{7f}' && c !in ['?', '#', '\\'] }

  ghost predicate TwoDots(s: string) { exists i :: 0 < i < |s| && s[i - 1] == '.' && s[i] == '.' }

  /** The escape at i is one of a byte that may stand in a path: no separator, dot,
      semicolon or control character. */
  predicate SafeEscapeAt(s: string, i: nat)
    requires i < |s|
  {
    && i + 2 < |s| && IsHex(s[i + 1]) && IsHex(s[i + 2])
    && Plain(Decoded(s[i + 1], s[i + 2])) && Decoded(s[i + 1], s[i + 2]) !in ['/', '.', ';']
  }

  lemma {:induction false} EscapesAreSafe(s: string)
    ensures !UnsafeEscape(s) <==> forall i :: 0 <= i < |s| && s[i] == '%' ==> SafeEscapeAt(s, i)
    decreases |s|
  {
    if s != "" {
      hide Decoded, IsHex, Unsafe;
      EscapeIs(s);
      if s[0] != '%' {
        EscapesAreSafe(s[1..]);
        Later(s, 1);
      } else if SafeEscapeAt(s, 0) {
        EscapesAreSafe(s[3..]);
        Later(s, 3);
        HexIsNoPercent(s[1]);
        HexIsNoPercent(s[2]);
      }
    }
  }

  lemma EscapeIs(s: string)
    requires s != ""
    ensures s[0] == '%' ==> (SafeEscapeAt(s, 0) <==> EscapeAt(s, 0) && !Unsafe(Decoded(s[1], s[2])))
  {
    var marks := "/\\.?#;";
    assert marks == ['/', '\\', '.', '?', '#', ';'];
  }

  lemma HexIsNoPercent(c: char)
    requires IsHex(c)
    ensures c != '%'
  {
  }

  lemma Later(s: string, n: nat)
    requires n <= |s|
    ensures (forall i :: 0 <= i < |s[n..]| && s[n..][i] == '%' ==> SafeEscapeAt(s[n..], i)) <==>
      forall i :: n <= i < |s| && s[i] == '%' ==> SafeEscapeAt(s, i)
  {
    hide Decoded, IsHex;
    if forall i :: 0 <= i < |s[n..]| && s[n..][i] == '%' ==> SafeEscapeAt(s[n..], i) {
      forall i | n <= i < |s| && s[i] == '%' ensures SafeEscapeAt(s, i) { assert SafeEscapeAt(s[n..], i - n); }
    }
    if forall i :: n <= i < |s| && s[i] == '%' ==> SafeEscapeAt(s, i) {
      forall i | 0 <= i < |s[n..]| && s[n..][i] == '%' ensures SafeEscapeAt(s[n..], i) {
        assert SafeEscapeAt(s, n + i);
      }
    }
  }

  lemma TwoDotsIs(s: string)
    ensures Contains(s, "..") <==> TwoDots(s)
  {
    if i :| 0 <= i <= |s| && ContainsAt(s, "..", i) {
      assert s[i..i + 2][0] == s[i] && s[i..i + 2][1] == s[i + 1];
    }
    if i :| 0 < i < |s| && s[i - 1] == '.' && s[i] == '.' {
      assert s[i - 1..i - 1 + 2] == "..";
      assert ContainsAt(s, "..", i - 1);
    }
  }

  lemma PlainIs(s: string)
    ensures (forall i :: 0 <= i < |s| ==> Plain(s[i])) <==>
      && !(exists i :: 0 <= i < |s| && s[i] in "?#\\")
      && !(exists i :: 0 <= i < |s| && IsControl(s[i]))
  {
    var marks := "?#\\";
    assert marks == ['?', '#', '\\'];
    assert forall i :: 0 <= i < |s| ==> (Plain(s[i]) <==> s[i] !in marks && !IsControl(s[i]));
  }

  /** A single-segment value is accepted exactly when it is plain, has no "/" or "%" and no
      two dots together. */
  lemma SingleIsAccepted(s: string)
    ensures !PathInjection(s, false) <==>
      && (forall i :: 0 <= i < |s| ==> Plain(s[i]))
      && '/' !in s && '%' !in s && !TwoDots(s)
  {
    hide Contains, Plain, IsControl, TwoDots;
    PlainIs(s);
    TwoDotsIs(s);
  }

  /** A multi-segment value is accepted exactly when it is plain, has no two dots together,
      each "%" begins a safe escape, and no segment is empty or a dot. */
  lemma MultiIsAccepted(s: string)
    ensures !PathInjection(s, true) <==>
      && (forall i :: 0 <= i < |s| ==> Plain(s[i])) && !TwoDots(s)
      && (forall i :: 0 <= i < |s| && s[i] == '%' ==> SafeEscapeAt(s, i))
      && "" !in Segments(s) && "." !in Segments(s)
  {
    hide Contains, Plain, IsControl, TwoDots, UnsafeEscape, SafeEscapeAt, Segments;
    PlainIs(s);
    TwoDotsIs(s);
    EscapesAreSafe(s);
  }
}
