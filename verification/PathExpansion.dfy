/** expandPathTemplate of internal/server/pathtemplate.go: one pass, values never
    scanned again, separators only from the template. */
module PathExpansion {
  import opened Strings
  import opened PathTemplate

  // ----- net/url escaping

  predicate Unreserved(c: char) {
    'a' <= c <= 'z' || 'A' <= c <= 'Z' || '0' <= c <= '9' || c == '-' || c == '_' || c == '.' || c == '~'
  }

  function HexDigit(n: nat): (c: char)
    requires n < 16
    ensures IsHex(c) && Unhex(c) == n
  {
    if n < 10 then ('0' as int + n) as char else ('A' as int + n - 10) as char
  }

  function Escaped(c: char): string {
    ['%', HexDigit(c as int / 16 % 16), HexDigit(c as int % 16)]
  }

  function PathByte(c: char): string {
    if Unreserved(c) || c in {'$', '&', '+', '=', ':', '@'} then [c] else Escaped(c)
  }

  function QueryByte(c: char): string {
    if Unreserved(c) then [c] else if c == ' ' then "+" else Escaped(c)
  }

  function PathEscape(s: string): string {
    if s == "" then "" else PathByte(s[0]) + PathEscape(s[1..])
  }

  function QueryEscape(s: string): string {
    if s == "" then "" else QueryByte(s[0]) + QueryEscape(s[1..])
  }

  /** A path-escaped value arrives as it was sent. */
  lemma {:induction false} PathEscapeRoundTrip(s: string)
    requires forall i :: 0 <= i < |s| ==> s[i] as int < 256
    ensures Decode(PathEscape(s)) == Some(s)
  {
    if s != "" {
      hide Decode, IsHex, Unhex, HexDigit;
      PathEscapeRoundTrip(s[1..]);
      var e, rest := PathByte(s[0]), PathEscape(s[1..]);
      DecodeStep(e + rest);
      if |e| == 1 {
        assert (e + rest)[1..] == rest && e[0] != '%';
      } else {
        assert (e + rest)[3..] == rest && EscapeAt(e + rest, 0);
        EscapedDecodes(s[0]);
      }
      assert [s[0]] + s[1..] == s;
    }
  }

  lemma EscapedDecodes(c: char)
    requires c as int < 256
    ensures Decoded(Escaped(c)[1], Escaped(c)[2]) == c
  {
  }

  // ----- placeholders

  /** The placeholder occupies t[start..end], braces included. */
  datatype Hole = Hole(start: nat, end: nat)

  predicate IsBrace(c: char) { c == '{' || c == '}' }

  function NameEnd(t: string, i: nat): (e: nat)
    requires i <= |t|
    ensures i <= e <= |t|
    decreases |t| - i
  {
    if i == |t| || IsBrace(t[i]) then i else NameEnd(t, i + 1)
  }

  /** All matches of \{([^{}]+)\} from i on. */
  function Holes(t: string, i: nat): (r: seq<Hole>)
    requires i <= |t|
    ensures InOrder(t, i, r)
    decreases |t| - i
  {
    if i == |t| then []
    else
      var e := NameEnd(t, i + 1);
      if t[i] == '{' && i + 1 < e < |t| && t[e] == '}' then [Hole(i, e + 1)] + Holes(t, e + 1)
      else
        assert InOrder(t, i + 1, Holes(t, i + 1));
        Holes(t, i + 1)
  }

  predicate InOrder(t: string, last: nat, hs: seq<Hole>)
    decreases |hs|
  {
    && last <= |t|
    && (hs != [] ==> last <= hs[0].start < hs[0].end - 2 && hs[0].end <= |t| && InOrder(t, hs[0].end, hs[1..]))
  }

  function Name(t: string, h: Hole): string
    requires h.start < h.end - 2 < |t| - 1
  {
    t[h.start + 1..h.end - 1]
  }

  const URLENCODE := "|urlencode"

  predicate Encodes(name: string) { HasSuffix(name, URLENCODE) }

  function Key(name: string): string {
    if Encodes(name) then name[..|name| - |URLENCODE|] else name
  }

  /** Site values, formatted parameter values, and the keys defined multi_segment. */
  datatype Env = Env(site: map<string, string>, params: map<string, string>, multi: set<string>)

  predicate InQuery(before: string) { HasSuffix(before, "?path=") || HasSuffix(before, "&path=") }

  /** A parameter's value as it enters the path; None when it is refused. */
  function Value(before: string, encode: bool, v: string, multi: bool): Option<string> {
    if InQuery(before) || (encode && '?' in before) then Some(QueryEscape(v))
    else if encode then (if v == "." || v == ".." then None else Some(PathEscape(v)))
    else if PathInjection(v, multi) || ';' in v then None
    else if '?' in before && exists i :: 0 <= i < |v| && v[i] in "&=+" then None
    else Some(v)
  }

  function Subst(t: string, h: Hole, env: Env): Option<string>
    requires h.start < h.end - 2 < |t| - 1
  {
    var name := Name(t, h);
    if name in env.site then Some(env.site[name])
    else if Key(name) !in env.params then Some(t[h.start..h.end])
    else Value(t[..h.start], Encodes(name), env.params[Key(name)], Key(name) in env.multi)
  }

  /** Literal text and substituted values, alternating. */
  function Pieces(t: string, last: nat, hs: seq<Hole>, env: Env): Option<seq<string>>
    requires InOrder(t, last, hs)
    decreases |hs|
  {
    if hs == [] then Some([t[last..]])
    else
      var v := Subst(t, hs[0], env);
      var rest := Pieces(t, hs[0].end, hs[1..], env);
      if v.None? || rest.None? then None else Some([t[last..hs[0].start], v.value] + rest.value)
  }

  function Flat(ps: seq<string>): string {
    if ps == [] then "" else ps[0] + Flat(ps[1..])
  }

  function Expand(t: string, env: Env): Option<string> {
    var ps := Pieces(t, 0, Holes(t, 0), env);
    if ps.None? then None else Some(Flat(ps.value))
  }

  /** What remains to be written after the text before `last`. */
  function Rest(t: string, last: nat, hs: seq<Hole>, env: Env): Option<string>
    requires InOrder(t, last, hs)
  {
    var ps := Pieces(t, last, hs, env);
    if ps.None? then None else Some(Flat(ps.value))
  }

  lemma FlatOne(s: string)
    ensures Flat([s]) == s
  {
  }

  lemma FlatTwo(a: string, b: string, rest: seq<string>)
    ensures Flat([a, b] + rest) == a + (b + Flat(rest))
  {
  }

  lemma RestStep(t: string, last: nat, hs: seq<Hole>, env: Env)
    requires InOrder(t, last, hs)
    ensures hs == [] ==> Rest(t, last, hs, env) == Some(t[last..])
    ensures hs != [] ==>
      var v, rest := Subst(t, hs[0], env), Rest(t, hs[0].end, hs[1..], env);
      Rest(t, last, hs, env) ==
        if v.None? || rest.None? then None else Some(t[last..hs[0].start] + (v.value + rest.value))
  {
    hide Flat, Subst;
    FlatOne(t[last..]);
    if hs != [] {
      var v, rest := Subst(t, hs[0], env), Pieces(t, hs[0].end, hs[1..], env);
      if v.Some? && rest.Some? { FlatTwo(t[last..hs[0].start], v.value, rest.value); }
    }
  }

  /** What the builder holds, then the rest. */
  predicate Remains(whole: Option<string>, b: string, rest: Option<string>) {
    whole == if rest.None? then None else Some(b + rest.value)
  }

  lemma EmptyPrefix(whole: Option<string>)
    ensures Remains(whole, "", whole)
  {
    if whole.Some? { assert "" + whole.value == whole.value; }
  }

  method ExpandPathTemplate(tmpl: string, env: Env) returns (r: Option<string>)
    ensures r == Expand(tmpl, env)
  {
    hide Pieces, Flat, PathInjection, QueryEscape, PathEscape, Holes, InQuery;
    ghost var whole := Rest(tmpl, 0, Holes(tmpl, 0), env);
    var hs := Holes(tmpl, 0);
    var b := "";
    var last: nat := 0;
    EmptyPrefix(whole);
    while hs != []
      invariant InOrder(tmpl, last, hs)
      invariant Remains(whole, b, Rest(tmpl, last, hs, env))
      decreases |hs|
    {
      var h := hs[0];
      RestStep(tmpl, last, hs, env);
      ghost var text := tmpl[last..h.start];
      b, last, hs := b + tmpl[last..h.start], h.end, hs[1..];
      var raw, name := tmpl[h.start..h.end], tmpl[h.start + 1..h.end - 1];
      var str: string;
      if name in env.site {
        str := env.site[name];
      } else {
        var encode, key := false, name;
        if HasSuffix(name, URLENCODE) {
          encode, key := true, name[..|name| - |URLENCODE|];
        }
        if key !in env.params {
          str := raw;
        } else {
          str := env.params[key];
          var before := tmpl[..h.start];
          if InQuery(before) || (encode && '?' in before) {
            str := QueryEscape(str);
          } else if encode {
            if str == "." || str == ".." { return None; }
            str := PathEscape(str);
          } else {
            var bad := HasPathInjection(str, key in env.multi);
            var adds := ContainsAny(str, "&=+");
            if bad || ';' in str || ('?' in before && adds) { return None; }
          }
        }
      }
      assert Subst(tmpl, h, env) == Some(str);
      ghost var rest := Rest(tmpl, last, hs, env);
      if rest.Some? { Regroup(b[..|b| - |text|], text, str, rest.value); }
      b := b + str;
    }
    RestStep(tmpl, last, hs, env);
    return Some(b + tmpl[last..]);
  }

  lemma Regroup(a: string, b: string, c: string, d: string)
    ensures a + (b + (c + d)) == a + b + c + d
  {
  }

  // ----- values are never scanned again

  /** Changing one parameter's value changes no piece but its own placeholders',
      even when the value itself spells a placeholder. */
  lemma {:induction false} OwnPieces(t: string, last: nat, hs: seq<Hole>, env: Env, key: string, v: string)
    requires InOrder(t, last, hs) && key in env.params
    ensures var ps, qs := Pieces(t, last, hs, env), Pieces(t, last, hs, env.(params := env.params[key := v]));
      ps.Some? && qs.Some? ==> DifferOnlyAt(t, hs, key, ps.value, qs.value)
    decreases |hs|
  {
    hide Value, Subst, Key;
    if hs != [] {
      OwnPieces(t, hs[0].end, hs[1..], env, key, v);
      var changed := env.(params := env.params[key := v]);
      if Key(Name(t, hs[0])) != key { OwnSubst(t, hs[0], env, key, v); }
      var ps, qs := Pieces(t, last, hs, env), Pieces(t, last, hs, changed);
      if ps.Some? && qs.Some? {
        var pr, qr := Pieces(t, hs[0].end, hs[1..], env).value, Pieces(t, hs[0].end, hs[1..], changed).value;
        assert ps.value == ps.value[..2] + pr && qs.value == qs.value[..2] + qr;
        forall i | 0 <= i < |ps.value| && ps.value[i] != qs.value[i]
          ensures OwnPlace(t, hs, key, i)
        {
          if i >= 2 {
            assert pr[i - 2] != qr[i - 2];
            assert OwnPlace(t, hs[1..], key, i - 2);
            assert hs[1..][(i - 2) / 2] == hs[i / 2];
          }
        }
      }
    }
  }

  lemma OwnSubst(t: string, h: Hole, env: Env, key: string, v: string)
    requires h.start < h.end - 2 < |t| - 1 && key in env.params && Key(Name(t, h)) != key
    ensures Subst(t, h, env.(params := env.params[key := v])) == Subst(t, h, env)
  {
    hide Value;
  }

  ghost predicate OwnPlace(t: string, hs: seq<Hole>, key: string, i: nat) {
    i % 2 == 1 && i / 2 < |hs| && var h := hs[i / 2];
      h.start < h.end - 2 < |t| - 1 && Key(Name(t, h)) == key
  }

  ghost predicate DifferOnlyAt(t: string, hs: seq<Hole>, key: string, ps: seq<string>, qs: seq<string>) {
    && |ps| == |qs| == 2 * |hs| + 1
    && forall i :: 0 <= i < |ps| && ps[i] != qs[i] ==> OwnPlace(t, hs, key, i)
  }

  // ----- separators

  function Only(s: string, keep: set<char>): string {
    if s == "" then "" else Kept(s[0], keep) + Only(s[1..], keep)
  }

  function Kept(c: char, keep: set<char>): string {
    if c in keep then [c] else ""
  }

  lemma {:induction false} OnlyConcat(a: string, b: string, keep: set<char>)
    ensures Only(a + b, keep) == Only(a, keep) + Only(b, keep)
  {
    hide Kept;
    if a == "" {
      assert a + b == b;
    } else {
      assert (a + b)[1..] == a[1..] + b;
      OnlyConcat(a[1..], b, keep);
    }
  }

  lemma {:induction false} OnlyNone(s: string, keep: set<char>)
    requires forall c :: c in keep ==> c !in s
    ensures Only(s, keep) == ""
  {
    if s != "" { OnlyNone(s[1..], keep); }
  }

  predicate Quiet(c: char) {
    c != '/' && c != '?' && c != '#'
  }

  lemma {:induction false} PathEscapeQuiet(s: string)
    ensures forall i :: 0 <= i < |PathEscape(s)| ==> Quiet(PathEscape(s)[i])
  {
    if s != "" { PathEscapeQuiet(s[1..]); }
  }

  lemma {:induction false} QueryEscapeQuiet(s: string)
    ensures forall i :: 0 <= i < |QueryEscape(s)| ==>
      var c := QueryEscape(s)[i]; Quiet(c) && c != '&' && c != '='
  {
    if s != "" { QueryEscapeQuiet(s[1..]); }
  }

  /** The path with every parameter value left out: literal text, site values and
      unknown placeholders. */
  function TrustedSubst(t: string, h: Hole, env: Env): string
    requires h.start < h.end - 2 < |t| - 1
  {
    var name := Name(t, h);
    if name in env.site then env.site[name]
    else if Key(name) !in env.params then t[h.start..h.end]
    else ""
  }

  function Trusted(t: string, last: nat, hs: seq<Hole>, env: Env): string
    requires InOrder(t, last, hs)
    decreases |hs|
  {
    if hs == [] then t[last..]
    else t[last..hs[0].start] + (TrustedSubst(t, hs[0], env) + Trusted(t, hs[0].end, hs[1..], env))
  }

  /** The placeholder takes a raw value whose "/" are path separators. */
  predicate RawMultiSegment(t: string, h: Hole, env: Env)
    requires h.start < h.end - 2 < |t| - 1
  {
    var name := Name(t, h);
    name !in env.site && name in env.params && name in env.multi && !Encodes(name) && !InQuery(t[..h.start])
  }

  ghost predicate NoRawMultiSegment(t: string, hs: seq<Hole>, env: Env) {
    forall i :: 0 <= i < |hs| && hs[i].start < hs[i].end - 2 < |t| - 1 ==> !RawMultiSegment(t, hs[i], env)
  }

  lemma ValueMarks(before: string, encode: bool, v: string, multi: bool)
    ensures var r := Value(before, encode, v, multi);
      r.Some? ==>
        && '?' !in r.value && '#' !in r.value
        && (encode || InQuery(before) || !multi ==> '/' !in r.value)
        && ('?' in before ==> '&' !in r.value && '=' !in r.value)
  {
    hide Contains, UnsafeEscape, InQuery;
    PathEscapeQuiet(v);
    QueryEscapeQuiet(v);
    assert "?#\\"[0] == '?' && "?#\\"[1] == '#' && "&=+"[0] == '&' && "&=+"[1] == '=';
  }

  lemma SubstSeparators(t: string, h: Hole, env: Env, keep: set<char>)
    requires h.start < h.end - 2 < |t| - 1
    requires keep <= {'/', '?', '#'} && ('/' in keep ==> !RawMultiSegment(t, h, env))
    ensures Subst(t, h, env).Some? ==> Only(Subst(t, h, env).value, keep) == Only(TrustedSubst(t, h, env), keep)
  {
    hide Value, Encodes, InQuery;
    var name := Name(t, h);
    if name !in env.site && Key(name) in env.params && Subst(t, h, env).Some? {
      ValueMarks(t[..h.start], Encodes(name), env.params[Key(name)], Key(name) in env.multi);
      OnlyNone(Subst(t, h, env).value, keep);
    }
  }

  lemma {:induction false} RestSeparators(t: string, last: nat, hs: seq<Hole>, env: Env, keep: set<char>)
    requires InOrder(t, last, hs) && Rest(t, last, hs, env).Some?
    requires keep <= {'/', '?', '#'} && ('/' in keep ==> NoRawMultiSegment(t, hs, env))
    ensures Only(Rest(t, last, hs, env).value, keep) == Only(Trusted(t, last, hs, env), keep)
    decreases |hs|
  {
    hide Rest, Subst, TrustedSubst, RawMultiSegment, Only;
    RestStep(t, last, hs, env);
    if hs != [] {
      var text, h := t[last..hs[0].start], hs[0];
      var v, w := Subst(t, h, env), TrustedSubst(t, h, env);
      var rest, trusted := Rest(t, h.end, hs[1..], env), Trusted(t, h.end, hs[1..], env);
      SubstSeparators(t, h, env, keep);
      RestSeparators(t, h.end, hs[1..], env, keep);
      OnlyConcat(text, v.value + rest.value, keep);
      OnlyConcat(v.value, rest.value, keep);
      OnlyConcat(text, w + trusted, keep);
      OnlyConcat(w, trusted, keep);
    }
  }

  /** An expansion has exactly the "?" and "#" of its trusted text, and exactly its
      "/" too unless a raw multi-segment value is substituted. */
  lemma SeparatorsComeFromTemplate(t: string, env: Env)
    requires Expand(t, env).Some?
    ensures Only(Expand(t, env).value, {'?', '#'}) == Only(Trusted(t, 0, Holes(t, 0), env), {'?', '#'})
    ensures NoRawMultiSegment(t, Holes(t, 0), env) ==>
      Only(Expand(t, env).value, {'/', '?', '#'}) == Only(Trusted(t, 0, Holes(t, 0), env), {'/', '?', '#'})
  {
    var hs := Holes(t, 0);
    RestSeparators(t, 0, hs, env, {'?', '#'});
    if NoRawMultiSegment(t, hs, env) { RestSeparators(t, 0, hs, env, {'/', '?', '#'}); }
  }

  // ----- the query part

  /** From the first "?" on. */
  function QueryPart(s: string): string {
    if s == "" || s[0] == '?' then s else QueryPart(s[1..])
  }

  lemma {:induction false} QueryPartConcat(a: string, b: string)
    ensures QueryPart(a + b) == if '?' in a then QueryPart(a) + b else QueryPart(b)
  {
    if a == "" {
      assert a + b == b;
    } else {
      assert (a + b)[1..] == a[1..] + b;
      if a[0] != '?' { QueryPartConcat(a[1..], b); }
    }
  }

  const PAIRS: set<char> := {'&', '='}

  lemma SubstInQuery(t: string, h: Hole, env: Env)
    requires h.start < h.end - 2 < |t| - 1 && '?' in t[..h.start]
    ensures Subst(t, h, env).Some? ==> Only(Subst(t, h, env).value, PAIRS) == Only(TrustedSubst(t, h, env), PAIRS)
  {
    hide Value, Encodes, InQuery;
    var name := Name(t, h);
    if name !in env.site && Key(name) in env.params && Subst(t, h, env).Some? {
      ValueMarks(t[..h.start], Encodes(name), env.params[Key(name)], Key(name) in env.multi);
      OnlyNone(Subst(t, h, env).value, PAIRS);
    }
  }

  lemma {:induction false} RestInQuery(t: string, last: nat, hs: seq<Hole>, env: Env)
    requires InOrder(t, last, hs) && Rest(t, last, hs, env).Some? && '?' in t[..last]
    ensures Only(Rest(t, last, hs, env).value, PAIRS) == Only(Trusted(t, last, hs, env), PAIRS)
    decreases |hs|
  {
    hide Rest, Subst, TrustedSubst, Only;
    RestStep(t, last, hs, env);
    if hs != [] {
      var text, h := t[last..hs[0].start], hs[0];
      var v, w := Subst(t, h, env), TrustedSubst(t, h, env);
      var rest, trusted := Rest(t, h.end, hs[1..], env), Trusted(t, h.end, hs[1..], env);
      StillInQuery(t, last, h.start);
      StillInQuery(t, last, h.end);
      SubstInQuery(t, h, env);
      RestInQuery(t, h.end, hs[1..], env);
      OnlyConcat(text, v.value + rest.value, PAIRS);
      OnlyConcat(v.value, rest.value, PAIRS);
      OnlyConcat(text, w + trusted, PAIRS);
      OnlyConcat(w, trusted, PAIRS);
    }
  }

  lemma StillInQuery(t: string, i: nat, j: nat)
    requires i <= j <= |t|
    ensures '?' in t[..i] ==> '?' in t[..j]
    ensures '?' in t[i..j] ==> '?' in t[..j]
  {
  }

  predicate AddsPairs(v: string) { '&' in v || '=' in v }

  /** A parameter value with "&" or "=" follows the "?" of a site value, and no "?" of
      the template's own text comes before it. `seen`: such a site value came before. */
  predicate Exposed(t: string, last: nat, hs: seq<Hole>, env: Env, seen: bool)
    requires InOrder(t, last, hs)
    decreases |hs|
  {
    if hs == [] || '?' in t[..hs[0].start] then false
    else
      var h, name := hs[0], Name(t, hs[0]);
      if name in env.site then Exposed(t, h.end, hs[1..], env, seen || '?' in env.site[name])
      else if Key(name) !in env.params then Exposed(t, h.end, hs[1..], env, seen)
      else
        || (seen && !InQuery(t[..h.start]) && AddsPairs(env.params[Key(name)]))
        || Exposed(t, h.end, hs[1..], env, seen)
  }

  lemma {:induction false} PathEscapeKeepsPairs(v: string)
    ensures AddsPairs(PathEscape(v)) <==> AddsPairs(v)
  {
    if v != "" {
      PathEscapeKeepsPairs(v[1..]);
      assert v == [v[0]] + v[1..];
    }
  }

  lemma {:induction false} PairsKept(v: string)
    ensures Only(v, PAIRS) != "" <==> AddsPairs(v)
  {
    if v != "" { PairsKept(v[1..]); }
  }

  /** Before any "?" of the template, a value enters with its "&" and "=". */
  lemma ValuePairs(before: string, encode: bool, v: string, multi: bool)
    requires '?' !in before
    ensures var r := Value(before, encode, v, multi);
      r.Some? ==> (Only(r.value, PAIRS) != "" <==> !InQuery(before) && AddsPairs(v))
  {
    hide PathInjection, InQuery, PathEscape, QueryEscape, Only;
    PairsKept(v);
    PathEscapeKeepsPairs(v);
    PairsKept(PathEscape(v));
    QueryEscapeQuiet(v);
    PairsKept(QueryEscape(v));
  }

  /** A placeholder's value is trusted, or a parameter's without "?". */
  lemma SubstIs(t: string, h: Hole, env: Env)
    requires h.start < h.end - 2 < |t| - 1 && Subst(t, h, env).Some?
    ensures var v, w := Subst(t, h, env).value, TrustedSubst(t, h, env); var name := Name(t, h);
      if name in env.site then v == w == env.site[name]
      else if Key(name) !in env.params then v == w == t[h.start..h.end]
      else
        && w == "" && '?' !in v
        && ('?' !in t[..h.start] ==>
              (Only(v, PAIRS) != "" <==> !InQuery(t[..h.start]) && AddsPairs(env.params[Key(name)])))
  {
    hide Value, Encodes, InQuery, Only, AddsPairs;
    var name := Name(t, h);
    if name !in env.site && Key(name) in env.params {
      ValueMarks(t[..h.start], Encodes(name), env.params[Key(name)], Key(name) in env.multi);
      if '?' !in t[..h.start] {
        ValuePairs(t[..h.start], Encodes(name), env.params[Key(name)], Key(name) in env.multi);
      }
    }
  }

  lemma NotExposedInQuery(t: string, last: nat, hs: seq<Hole>, env: Env, seen: bool)
    requires InOrder(t, last, hs) && '?' in t[..last]
    ensures !Exposed(t, last, hs, env, seen)
  {
    if hs != [] { StillInQuery(t, last, hs[0].start); }
  }

  /** Parameter values only add to the trusted text. */
  lemma {:induction false} RestHasMore(t: string, last: nat, hs: seq<Hole>, env: Env)
    requires InOrder(t, last, hs) && Rest(t, last, hs, env).Some?
    ensures |Only(Rest(t, last, hs, env).value, PAIRS)| >= |Only(Trusted(t, last, hs, env), PAIRS)|
    decreases |hs|
  {
    hide Rest, Subst, TrustedSubst;
    RestStep(t, last, hs, env);
    if hs != [] {
      var text, h := t[last..hs[0].start], hs[0];
      var v, w := Subst(t, h, env).value, TrustedSubst(t, h, env);
      var rest, trusted := Rest(t, h.end, hs[1..], env).value, Trusted(t, h.end, hs[1..], env);
      SubstIs(t, h, env);
      RestHasMore(t, h.end, hs[1..], env);
      PairsConcat(text, v, rest);
      PairsConcat(text, w, trusted);
    }
  }

  lemma Cancel(a: string, b: string, c: string)
    ensures a + b == a + c <==> b == c
  {
    if a + b == a + c { assert b == (a + b)[|a|..] == (a + c)[|a|..] == c; }
  }

  /** Behind the "?" of a site value. */
  lemma {:induction false} RestAfterSite(t: string, last: nat, hs: seq<Hole>, env: Env)
    requires InOrder(t, last, hs) && Rest(t, last, hs, env).Some?
    ensures Only(Rest(t, last, hs, env).value, PAIRS) == Only(Trusted(t, last, hs, env), PAIRS) <==>
      !Exposed(t, last, hs, env, true)
    decreases |hs|
  {
    hide Rest, Subst, TrustedSubst, Only, InQuery, AddsPairs, Key;
    RestStep(t, last, hs, env);
    if hs != [] {
      var text, h := t[last..hs[0].start], hs[0];
      var v, w := Subst(t, h, env).value, TrustedSubst(t, h, env);
      var rest, trusted := Rest(t, h.end, hs[1..], env).value, Trusted(t, h.end, hs[1..], env);
      PairsConcat(text, v, rest);
      PairsConcat(text, w, trusted);
      if '?' in t[..h.start] {
        StillInQuery(t, h.start, h.end);
        SubstInQuery(t, h, env);
        RestInQuery(t, h.end, hs[1..], env);
      } else {
        SubstIs(t, h, env);
        RestAfterSite(t, h.end, hs[1..], env);
        RestHasMore(t, h.end, hs[1..], env);
        OnlyEmpty(PAIRS);
        Cancel(Only(text, PAIRS), Only(v, PAIRS) + Only(rest, PAIRS), Only(w, PAIRS) + Only(trusted, PAIRS));
        Cancel(Only(v, PAIRS), Only(rest, PAIRS), Only(trusted, PAIRS));
      }
    }
  }

  lemma OnlyEmpty(keep: set<char>)
    ensures Only("", keep) == ""
  {
  }

  /** While no "?" has been written. */
  lemma {:induction false} QueryRest(t: string, last: nat, hs: seq<Hole>, env: Env)
    requires InOrder(t, last, hs) && Rest(t, last, hs, env).Some?
    ensures (Only(QueryPart(Rest(t, last, hs, env).value), PAIRS) ==
             Only(QueryPart(Trusted(t, last, hs, env)), PAIRS)) <==>
            !Exposed(t, last, hs, env, false)
    decreases |hs|
  {
    hide Rest, Subst, TrustedSubst, Only, QueryPart, InQuery, AddsPairs, Key;
    RestStep(t, last, hs, env);
    if hs != [] {
      var text, h := t[last..hs[0].start], hs[0];
      var v, w := Subst(t, h, env).value, TrustedSubst(t, h, env);
      var rest, trusted := Rest(t, h.end, hs[1..], env).value, Trusted(t, h.end, hs[1..], env);
      QueryPartConcat(text, v + rest);
      QueryPartConcat(text, w + trusted);
      StillInQuery(t, last, h.start);
      StillInQuery(t, h.start, h.end);
      if '?' in text {
        SubstInQuery(t, h, env);
        RestInQuery(t, h.end, hs[1..], env);
        PairsConcat(QueryPart(text), v, rest);
        PairsConcat(QueryPart(text), w, trusted);
      } else {
        SubstIs(t, h, env);
        QueryPartConcat(v, rest);
        QueryPartConcat(w, trusted);
        if '?' in t[..h.end] {
          NotExposedInQuery(t, h.end, hs[1..], env, true);
          NotExposedInQuery(t, h.end, hs[1..], env, false);
        }
        if '?' in v {
          OnlyConcat(QueryPart(v), rest, PAIRS);
          OnlyConcat(QueryPart(v), trusted, PAIRS);
          Cancel(Only(QueryPart(v), PAIRS), Only(rest, PAIRS), Only(trusted, PAIRS));
          RestAfterSite(t, h.end, hs[1..], env);
        } else {
          QueryRest(t, h.end, hs[1..], env);
        }
      }
    }
  }

  lemma PairsConcat(a: string, b: string, c: string)
    ensures Only(a + (b + c), PAIRS) == Only(a, PAIRS) + (Only(b, PAIRS) + Only(c, PAIRS))
  {
    OnlyConcat(a, b + c, PAIRS);
    OnlyConcat(b, c, PAIRS);
  }

  /** The query part of an expansion has exactly the "&" and "=" of the trusted text's
      query part, unless a site value opens the query where the template does not and
      a parameter value with "&" or "=" follows: then never. */
  lemma QueryPairsComeFromTemplate(t: string, env: Env)
    requires Expand(t, env).Some?
    ensures (Only(QueryPart(Expand(t, env).value), {'&', '='}) ==
             Only(QueryPart(Trusted(t, 0, Holes(t, 0), env)), {'&', '='})) <==>
            !Exposed(t, 0, Holes(t, 0), env, false)
  {
    QueryRest(t, 0, Holes(t, 0), env);
  }

  /** The input that shows it: a site value opens the query, a raw value adds to it. */
  lemma SiteQueryIsExposed()
    ensures var env := Env(map["s" := "?a="], map["k" := "1&b=2"], {});
      Expand("{s}{k}", env).Some? && Exposed("{s}{k}", 0, Holes("{s}{k}", 0), env, false)
  {
    hide PathInjection, Exposed, InQuery;
    var t, env := "{s}{k}", Env(map["s" := "?a="], map["k" := "1&b=2"], {});
    var h, g := Hole(0, 3), Hole(3, 6);
    assert NameEnd(t, 2) == 2 && NameEnd(t, 1) == 2;
    assert NameEnd(t, 5) == 5 && NameEnd(t, 4) == 5;
    assert Holes(t, 3) == [g] + Holes(t, 6) == [g];
    var hs := Holes(t, 0);
    assert hs == [h] + Holes(t, 3) == [h, g] && hs[1..] == [g] && [g][1..] == [];
    assert Name(t, h) == "s" && Name(t, g) == "k" && t[..3] == "{s}";
    OneSite(t, h, g, env);
  }

  lemma OneSite(t: string, h: Hole, g: Hole, env: Env)
    requires t == "{s}{k}" && h == Hole(0, 3) && g == Hole(3, 6) && Name(t, h) == "s" && Name(t, g) == "k"
    requires InOrder(t, 0, [h, g]) && [h, g][1..] == [g] && [g][1..] == [] && Holes(t, 0) == [h, g] && t[..3] == "{s}"
    requires env == Env(map["s" := "?a="], map["k" := "1&b=2"], {})
    ensures Expand(t, env).Some? && Exposed(t, 0, [h, g], env, false)
  {
    hide PathInjection, Holes, NameEnd;
    RawIsAccepted();
    assert !Encodes("k") && !InQuery("{s}");
    assert Subst(t, g, env) == Some("1&b=2") && Subst(t, h, env) == Some("?a=");
    assert Pieces(t, 6, [], env).Some? && Pieces(t, 3, [g], env).Some? && Pieces(t, 0, [h, g], env).Some?;
    assert "1&b=2"[1] == '&';
    assert "?a="[0] == '?';
    assert Exposed(t, 3, [g], env, true);
  }

  lemma RawIsAccepted()
    ensures !PathInjection("1&b=2", false)
  {
    var v := "1&b=2";
    DotsAreContained(v);
    assert forall i :: 0 <= i < |v| ==> v[i] in ['1', '&', 'b', '=', '2'];
    assert !HasDots(v);
    assert !exists i :: 0 <= i < |v| && v[i] in "?#\\";
  }

  /** A raw multi-segment value enters an accepted expansion verbatim, and safe. */
  lemma {:induction false} MultiSegmentIsSafe(t: string, last: nat, hs: seq<Hole>, env: Env, i: nat)
    requires InOrder(t, last, hs) && i < |hs| && Pieces(t, last, hs, env).Some?
    requires hs[i].start < hs[i].end - 2 < |t| - 1 && RawMultiSegment(t, hs[i], env)
    ensures var v := env.params[Name(t, hs[i])]; var ps := Pieces(t, last, hs, env).value;
      && 2 * i + 1 < |ps| && ps[2 * i + 1] == v
      && !PathInjection(v, true) && ';' !in v
      && Decode(v).Some? && DecodeEach(Segments(v), Segments(Decode(v).value))
      && forall k :: 0 <= k < |Segments(Decode(v).value)| ==>
           var seg := Segments(Decode(v).value)[k]; seg != "" && seg != "." && !Contains(seg, "..")
    decreases |hs|
  {
    hide PathInjection, Decode, Segments, InQuery, Encodes, Contains;
    if i == 0 {
      AcceptedMultiSegment(env.params[Name(t, hs[0])]);
    } else {
      MultiSegmentIsSafe(t, hs[0].end, hs[1..], env, i - 1);
    }
  }
}
