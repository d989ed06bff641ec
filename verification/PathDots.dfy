/** When an expanded path has a "." or ".." segment (internal/server/pathtemplate.go). */
module PathDots {
  import opened Strings
  import opened PathTemplate
  import opened PathExpansion

  // ----- single-segment values

  predicate SafeSegment(s: string) { s != "" && s != "." && !Contains(s, "..") }

  /** An accepted single-segment value stays one segment and means itself; it is a safe
      one exactly when it is neither empty nor ".". */
  lemma AcceptedSingleSegment(s: string)
    requires !PathInjection(s, false)
    ensures Decode(s) == Some(s) && Segments(s) == [s]
    ensures SafeSegment(s) <==> s != "" && s != "."
  {
    hide Contains, Decode, UnsafeEscape;
    NoEscapes(s);
    assert s + "" == s;
    SegmentsPrefix(s, "");
  }

  /** Those two are accepted. */
  lemma DotIsAccepted()
    ensures !PathInjection("", false) && !PathInjection(".", false)
  {
    DotsAreContained("");
    DotsAreContained(".");
    assert '.' !in "?#\\" && "."[0] == '.';
    assert forall i :: 0 <= i < |"."| ==> "."[i] == '.';
  }

  // ----- dot segments of a path

  predicate DotSegment(s: string) { s == "." || s == ".." }

  /** Up to the query or the fragment. */
  function PathPart(s: string): string {
    if s == "" || s[0] == '?' || s[0] == '#' then "" else [s[0]] + PathPart(s[1..])
  }

  ghost predicate AnyDots(segs: seq<string>) {
    exists k :: 0 <= k < |segs| && DotSegment(segs[k])
  }

  ghost predicate HasDotSegment(path: string) { AnyDots(Segments(PathPart(path))) }

  /** How the current segment has begun: with 0, 1 or 2 dots and nothing else (3: it is
      no dot segment any more); and whether a dot segment was seen before it. */
  datatype Reading = InPath(dots: nat, seen: bool) | Ended(seen: bool)

  function Closed(r: Reading): bool {
    r.seen || (r.InPath? && (r.dots == 1 || r.dots == 2))
  }

  function Read(r: Reading, c: char): Reading {
    if r.Ended? then r
    else if c == '/' then InPath(0, Closed(r))
    else if c == '?' || c == '#' then Ended(Closed(r))
    else InPath(if c == '.' && r.dots < 3 then r.dots + 1 else 3, r.seen)
  }

  function ReadAll(r: Reading, s: string): Reading
    decreases |s|
  {
    if s == "" then r else ReadAll(Read(r, s[0]), s[1..])
  }

  lemma {:induction false} ReadConcat(r: Reading, a: string, b: string)
    ensures ReadAll(r, a + b) == ReadAll(ReadAll(r, a), b)
    decreases |a|
  {
    if a == "" {
      assert a + b == b;
    } else {
      assert (a + b)[0] == a[0] && (a + b)[1..] == a[1..] + b;
      ReadConcat(Read(r, a[0]), a[1..], b);
    }
  }

  lemma {:induction false} ReadEnded(r: Reading, s: string)
    requires r.Ended?
    ensures ReadAll(r, s) == r
    decreases |s|
  {
    if s != "" { ReadEnded(r, s[1..]); }
  }

  function Dots(p: string): (n: nat)
    ensures n <= 3 && (n == 1 || n == 2 <==> DotSegment(p))
  {
    if p == "" then 0 else if p == "." then 1 else if p == ".." then 2 else 3
  }

  lemma DotsSnoc(p: string, c: char)
    ensures Dots(p + [c]) == if c == '.' && Dots(p) < 3 then Dots(p) + 1 else 3
  {
    assert (p + [c])[..|p|] == p && (p + [c])[|p|] == c;
    assert p == "" ==> p + [c] == [c];
    assert p == "." ==> p + [c] == ['.', c];
    assert p == ".." ==> p + [c] == ['.', '.', c];
  }

  lemma JoinStep(p: string, c: char, segs: seq<string>)
    requires segs != []
    ensures Join(p, Join([c], segs)) == Join(p + [c], segs)
  {
    assert p + ([c] + segs[0]) == p + [c] + segs[0];
  }

  lemma AnyDotsCons(s: string, segs: seq<string>)
    ensures AnyDots([s] + segs) <==> DotSegment(s) || AnyDots(segs)
  {
    if AnyDots(segs) {
      var k :| 0 <= k < |segs| && DotSegment(segs[k]);
      assert ([s] + segs)[k + 1] == segs[k];
    }
    assert ([s] + segs)[0] == s;
    assert forall k :: 1 <= k < |[s] + segs| ==> ([s] + segs)[k] == segs[k - 1];
  }

  /** Reading on after p finds the dot segments of p joined to what follows. */
  lemma {:induction false} ReadingFinds(p: string, seen: bool, s: string)
    requires '/' !in p
    ensures Closed(ReadAll(InPath(Dots(p), seen), s)) <==> seen || AnyDots(Join(p, Segments(PathPart(s))))
    decreases |s|
  {
    hide DotSegment, Dots;
    if s == "" || s[0] == '?' || s[0] == '#' {
      assert Join(p, [""]) == [p] + [] && p + "" == p;
      AnyDotsCons(p, []);
      DotsMean(p);
      if s != "" { ReadEnded(Ended(Closed(InPath(Dots(p), seen))), s[1..]); }
    } else if s[0] == '/' {
      var rest := Segments(PathPart(s[1..]));
      assert PathPart(s) == "/" + PathPart(s[1..]);
      SegmentsSlash(PathPart(s[1..]));
      assert Join(p, [""] + rest) == [p] + rest by { assert p + "" == p; }
      AnyDotsCons(p, rest);
      DotsMean(p);
      DotsMean("");
      ReadingFinds("", Closed(InPath(Dots(p), seen)), s[1..]);
      assert Join("", rest) == rest by { assert "" + rest[0] == rest[0]; }
    } else {
      var rest := Segments(PathPart(s[1..]));
      assert PathPart(s) == [s[0]] + PathPart(s[1..]);
      SegmentsPrefix([s[0]], PathPart(s[1..]));
      JoinStep(p, s[0], rest);
      DotsSnoc(p, s[0]);
      ReadingFinds(p + [s[0]], seen, s[1..]);
    }
  }

  lemma DotsMean(p: string)
    ensures (Dots(p) == 1 || Dots(p) == 2 <==> DotSegment(p)) && Dots("") == 0
  {
  }

  lemma ReadingMeans(s: string)
    ensures HasDotSegment(s) <==> Closed(ReadAll(InPath(0, false), s))
  {
    var segs := Segments(PathPart(s));
    ReadingFinds("", false, s);
    assert Join("", segs) == segs by { assert "" + segs[0] == segs[0]; }
  }

  // ----- what a value contributes

  /** A value, reduced to what matters for dot segments. */
  function Mask(v: string): string {
    if v == "" || DotSegment(v) then v else "x"
  }

  lemma ReadCons(r: Reading, v: string)
    ensures ReadAll(r, v) == if v == "" then r else ReadAll(Read(r, v[0]), v[1..])
  {
  }

  /** Reading a value none of whose inner segments is a dot segment. */
  lemma {:induction false} ReadPiece(p: string, seen: bool, v: string)
    requires '/' !in p && '?' !in v && '#' !in v
    requires var segs := Join(p, Segments(v)); forall k :: 0 <= k < |segs| - 1 ==> !DotSegment(segs[k])
    ensures var segs := Join(p, Segments(v)); ReadAll(InPath(Dots(p), seen), v) == InPath(Dots(segs[|segs| - 1]), seen)
    decreases |v|
  {
    hide DotSegment, Dots, Segments, ReadAll;
    ReadCons(InPath(Dots(p), seen), v);
    DotsMean(p);
    if v == "" {
      OneSegment("");
      assert p + "" == p;
    } else {
      var rest := Segments(v[1..]);
      assert v == [v[0]] + v[1..];
      if v[0] == '/' {
        SegmentsSlash(v[1..]);
        var segs := Join(p, Segments(v));
        assert segs == [p] + rest by { assert p + "" == p; }
        assert segs[0] == p;
        assert Join("", rest) == rest by { assert "" + rest[0] == rest[0]; }
        assert forall k :: 0 <= k < |rest| - 1 ==> rest[k] == segs[k + 1];
        ReadPiece("", seen, v[1..]);
      } else {
        SegmentsPrefix([v[0]], v[1..]);
        JoinStep(p, v[0], rest);
        DotsSnoc(p, v[0]);
        ReadPiece(p + [v[0]], seen, v[1..]);
      }
    }
  }

  /** Text that is not made of at most two dots makes no dot segment with text before it. */
  lemma NoDotsAfter(p: string, v: string)
    requires v != "" && !DotSegment(v)
    ensures Dots(p + v) == 3
  {
    var s := p + v;
    assert v == s[|p|..] && (p == "" ==> s == v);
  }

  lemma DotsOfDots()
    ensures Dots("") == 0 && Dots(".") == 1 && Dots("..") == 2 && Dots("x") == 3
  {
  }

  lemma MaskedRead(v: string, dots: nat, seen: bool)
    requires dots <= 3 && '?' !in v && '#' !in v && v != "" && !DotSegment(v)
    requires forall k :: 0 <= k < |Segments(v)| ==> Segments(v)[k] != "" && !DotSegment(Segments(v)[k])
    ensures ReadAll(InPath(dots, seen), v) == InPath(3, seen)
  {
    hide DotSegment, Dots, ReadAll, Segments;
    var p := if dots == 0 then "" else if dots == 1 then "." else if dots == 2 then ".." else "x";
    assert Dots(p) == dots && '/' !in p by { DotsOfDots(); }
    var segs := Segments(v);
    var joined := Join(p, segs);
    NoDotsAfter(p, segs[0]);
    DotsMean(p + segs[0]);
    assert joined[0] == p + segs[0] && forall k :: 1 <= k < |joined| ==> joined[k] == segs[k];
    ReadPiece(p, seen, v);
    if |segs| > 1 {
      NoDotsAfter("", segs[|segs| - 1]);
      assert "" + segs[|segs| - 1] == segs[|segs| - 1];
    }
  }

  lemma ReadX(dots: nat, seen: bool)
    ensures ReadAll(InPath(dots, seen), "x") == InPath(3, seen)
  {
    assert "x"[1..] == "";
  }

  /** A substituted value reads like its mask. */
  lemma ValueReads(before: string, encode: bool, v: string, multi: bool, r: Reading)
    requires Value(before, encode, v, multi).Some? && (r.InPath? ==> r.dots <= 3)
    ensures var x := Value(before, encode, v, multi).value; ReadAll(r, x) == ReadAll(r, Mask(x))
  {
    hide ReadAll, DotSegment, InQuery, PathEscape, QueryEscape, UnsafeEscape, Decode, Segments, Contains;
    var x := Value(before, encode, v, multi).value;
    ValueMarks(before, encode, v, multi);
    if r.Ended? {
      ReadEnded(r, x);
      ReadEnded(r, Mask(x));
    } else if x != "" && !DotSegment(x) {
      ReadX(r.dots, r.seen);
      if '/' !in x {
        assert x + "" == x;
        SegmentsPrefix(x, "");
        OneSegment(x);
      } else {
        RawSegments(x);
      }
      MaskedRead(x, r.dots, r.seen);
    }
  }

  lemma OneSegment(x: string)
    requires '/' !in x
    ensures Segments(x) == [x]
  {
    assert x + "" == x;
    SegmentsPrefix(x, "");
  }

  lemma RawSegments(x: string)
    requires !PathInjection(x, true)
    ensures forall k :: 0 <= k < |Segments(x)| ==> Segments(x)[k] != "" && !DotSegment(Segments(x)[k])
  {
    hide UnsafeEscape, Contains, Segments;
    DotsAreContained(x);
    forall k | 0 <= k < |Segments(x)| ensures Segments(x)[k] != "" && !DotSegment(Segments(x)[k]) {
      assert !BadSegment(Segments(x)[k]);
      SegmentDots(x, k);
      assert Segments(x)[k] == ".." ==> DotsAt(Segments(x)[k], 0);
    }
  }

  // ----- whole expansions

  /** The expansion with every parameter value reduced to its mask. */
  function MaskedSubst(t: string, h: Hole, env: Env): Option<string>
    requires h.start < h.end - 2 < |t| - 1
  {
    var v := Subst(t, h, env);
    if v.None? || Name(t, h) in env.site || Key(Name(t, h)) !in env.params then v else Some(Mask(v.value))
  }

  function Masked(t: string, last: nat, hs: seq<Hole>, env: Env): Option<string>
    requires InOrder(t, last, hs)
    decreases |hs|
  {
    if hs == [] then Some(t[last..])
    else
      var v, rest := MaskedSubst(t, hs[0], env), Masked(t, hs[0].end, hs[1..], env);
      if v.None? || rest.None? then None else Some(t[last..hs[0].start] + (v.value + rest.value))
  }

  lemma SubstReads(t: string, h: Hole, env: Env, r: Reading)
    requires h.start < h.end - 2 < |t| - 1 && Subst(t, h, env).Some? && (r.InPath? ==> r.dots <= 3)
    ensures ReadAll(r, Subst(t, h, env).value) == ReadAll(r, MaskedSubst(t, h, env).value)
  {
    hide Value, ReadAll, Encodes, Mask;
    var name := Name(t, h);
    if name !in env.site && Key(name) in env.params {
      ValueReads(t[..h.start], Encodes(name), env.params[Key(name)], Key(name) in env.multi, r);
    }
  }

  lemma {:induction false} FewDots(r: Reading, s: string)
    requires r.InPath? ==> r.dots <= 3
    ensures ReadAll(r, s).InPath? ==> ReadAll(r, s).dots <= 3
    decreases |s|
  {
    if s != "" { FewDots(Read(r, s[0]), s[1..]); }
  }

  lemma {:induction false} RestReads(t: string, last: nat, hs: seq<Hole>, env: Env, r: Reading)
    requires InOrder(t, last, hs) && Rest(t, last, hs, env).Some? && (r.InPath? ==> r.dots <= 3)
    ensures Masked(t, last, hs, env).Some?
    ensures ReadAll(r, Rest(t, last, hs, env).value) == ReadAll(r, Masked(t, last, hs, env).value)
    decreases |hs|
  {
    hide Rest, Subst, MaskedSubst, ReadAll;
    RestStep(t, last, hs, env);
    if hs != [] {
      var text, h := t[last..hs[0].start], hs[0];
      SubstGives(t, h, env);
      var v, w := Subst(t, h, env).value, MaskedSubst(t, h, env).value;
      var rest := Rest(t, h.end, hs[1..], env).value;
      var r1 := ReadAll(r, text);
      FewDots(r, text);
      SubstReads(t, h, env, r1);
      var r2 := ReadAll(r1, v);
      FewDots(r1, v);
      RestReads(t, h.end, hs[1..], env, r2);
      var masked := Masked(t, h.end, hs[1..], env).value;
      ReadConcat(r, text, v + rest);
      ReadConcat(r1, v, rest);
      ReadConcat(r, text, w + masked);
      ReadConcat(r1, w, masked);
    }
  }

  lemma SubstGives(t: string, h: Hole, env: Env)
    requires h.start < h.end - 2 < |t| - 1 && Subst(t, h, env).Some?
    ensures MaskedSubst(t, h, env).Some?
  {
  }

  /** An accepted expansion has a "." or ".." segment in its path exactly when it has one
      with every value other than "", "." and ".." replaced by an "x": only empty and
      dot values make one, alone or together with dots around them. */
  lemma DotSegmentsComeFromDotValues(t: string, env: Env)
    requires Expand(t, env).Some?
    ensures Masked(t, 0, Holes(t, 0), env).Some?
    ensures HasDotSegment(Expand(t, env).value) <==> HasDotSegment(Masked(t, 0, Holes(t, 0), env).value)
  {
    hide ReadAll;
    var hs := Holes(t, 0);
    RestReads(t, 0, hs, env, InPath(0, false));
    ReadingMeans(Expand(t, env).value);
    ReadingMeans(Masked(t, 0, hs, env).value);
  }

  /** Two accepted values together can make one. */
  lemma TwoDotsMeet()
    ensures Expand("{a}{b}", Env(map[], map["a" := ".", "b" := "."], {})) == Some("..")
  {
    hide PathInjection, InQuery;
    var t, env := "{a}{b}", Env(map[], map["a" := ".", "b" := "."], {});
    var h, g := Hole(0, 3), Hole(3, 6);
    assert NameEnd(t, 2) == 2 && NameEnd(t, 1) == 2;
    assert NameEnd(t, 5) == 5 && NameEnd(t, 4) == 5;
    assert Holes(t, 3) == [g] + Holes(t, 6) == [g];
    assert Holes(t, 0) == [h] + Holes(t, 3) == [h, g];
    assert Name(t, h) == "a" && Name(t, g) == "b";
    TwoDots(t, h, g, env);
  }

  lemma TwoDots(t: string, h: Hole, g: Hole, env: Env)
    requires t == "{a}{b}" && h == Hole(0, 3) && g == Hole(3, 6) && Name(t, h) == "a" && Name(t, g) == "b"
    requires Holes(t, 0) == [h, g] && env == Env(map[], map["a" := ".", "b" := "."], {})
    ensures Expand(t, env) == Some("..")
  {
    hide PathInjection, Holes, NameEnd, Pieces, Flat;
    DotIsAccepted();
    assert t[..0] == "" && t[..3] == "{a}";
    assert !Encodes("a") && !Encodes("b") && !InQuery("") && !InQuery("{a}");
    assert Subst(t, h, env) == Some(".") && Subst(t, g, env) == Some(".");
    assert [h, g][1..] == [g] && [g][1..] == [];
    RestStep(t, 0, [h, g], env);
    RestStep(t, 3, [g], env);
    RestStep(t, 6, [], env);
    assert t[0..0] == "" && t[3..3] == "" && t[6..] == "";
    assert "" + ("." + ("" + ("." + ""))) == "..";
  }
}
