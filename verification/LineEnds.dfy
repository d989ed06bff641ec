/** The line ends of a patched file (cmd/egw-desktop/yamledit.go). */
module LineEnds {
  import opened Strings
  import opened LineDiff
  import opened YamlPatch

  // ----- the majority of line ends

  ghost function NewLines(s: string): set<nat> { set i | 0 <= i < |s| && s[i] == '\n' }

  /** The newlines that follow a carriage return. */
  ghost function CrLfs(s: string): set<nat> { set i: nat | i < |s| && AfterCr(s, i) }

  ghost predicate AfterCr(s: string, i: nat) { 0 < i < |s| && s[i] == '\n' && s[i - 1] == '\r' }

  ghost function Shifted(xs: set<nat>, n: nat): set<nat> { set x | x in xs :: x + n }

  lemma {:induction false} ShiftedSize(xs: set<nat>, n: nat)
    ensures |Shifted(xs, n)| == |xs|
    decreases xs
  {
    if xs == {} {
      assert Shifted(xs, n) == {};
    } else {
      var x :| x in xs;
      ShiftedSize(xs - {x}, n);
      assert xs == (xs - {x}) + {x};
      assert Shifted(xs, n) == Shifted(xs - {x}, n) + {x + n};
      assert x + n !in Shifted(xs - {x}, n);
    }
  }

  lemma {:induction false} NewLinesCounted(s: string)
    ensures CountOf(s, "\n") == |NewLines(s)|
  {
    hide CountOf, NewLines, Shifted;
    if s == "" {
      NoNewLines();
    } else {
      NewLinesCounted(s[1..]);
      CountOne(s);
      NewLinesStep(s);
      ShiftedSize(NewLines(s[1..]), 1);
    }
  }

  lemma NoNewLines()
    ensures NewLines("") == {} && CountOf("", "\n") == 0
  {
  }

  lemma CountOne(s: string)
    requires s != ""
    ensures CountOf(s, "\n") == (if s[0] == '\n' then 1 else 0) + CountOf(s[1..], "\n")
  {
    assert s[..1] == [s[0]];
  }

  lemma NewLinesStep(s: string)
    requires s != ""
    ensures NewLines(s) == Shifted(NewLines(s[1..]), 1) + if s[0] == '\n' then {0} else {}
    ensures 0 !in Shifted(NewLines(s[1..]), 1)
  {
    var rest := Shifted(NewLines(s[1..]), 1);
    forall i: nat | 0 < i < |s| ensures i in NewLines(s) <==> i in rest {
      assert s[i] == s[1..][i - 1];
      if i - 1 in NewLines(s[1..]) { assert i - 1 + 1 in rest; }
    }
  }

  lemma {:induction false} CrLfsCounted(s: string)
    ensures CountOf(s, "\r\n") == |CrLfs(s)|
    decreases |s|
  {
    hide CountOf, CrLfs;
    CountStep(s);
    if s == "" {
      NoCrLfs(s);
    } else {
      var n := if HasPrefix(s, "\r\n") then 2 else 1;
      PrefixIs(s);
      CrLfsCounted(s[n..]);
      CrLfsStep(s, n);
      ShiftedSize(CrLfs(s[n..]), n);
      OneIsNotShifted(CrLfs(s[n..]));
    }
  }

  lemma CountStep(s: string)
    ensures CountOf(s, "\r\n") ==
      if s == "" then 0
      else if HasPrefix(s, "\r\n") then 1 + CountOf(s[2..], "\r\n") else CountOf(s[1..], "\r\n")
  {
  }

  lemma OneIsNotShifted(xs: set<nat>)
    ensures 1 !in Shifted(xs, 2) && |Shifted(xs, 2) + {1}| == |Shifted(xs, 2)| + 1
  {
  }

  lemma CrLfsStep(s: string, n: nat)
    requires s != "" && n <= |s|
    requires n == if |s| >= 2 && s[0] == '\r' && s[1] == '\n' then 2 else 1
    ensures CrLfs(s) == Shifted(CrLfs(s[n..]), n) + if n == 2 then {1} else {}
  {
    var rest := Shifted(CrLfs(s[n..]), n);
    forall i: nat ensures i in CrLfs(s) <==> i in rest || (n == 2 && i == 1) {
      if n < i < |s| {
        assert s[i] == s[n..][i - n] && s[i - 1] == s[n..][i - n - 1];
        if i - n in CrLfs(s[n..]) { assert i - n + n in rest; }
      }
    }
  }

  lemma PrefixIs(s: string)
    ensures HasPrefix(s, "\r\n") <==> |s| >= 2 && s[0] == '\r' && s[1] == '\n'
  {
    if |s| >= 2 { assert s[..2] == [s[0], s[1]]; }
  }

  /** Added lines get a carriage return exactly when more than half of the file's newlines
      follow one. */
  lemma NewLineEndIsMajority(s: string)
    ensures NewLineEnd(s) == if 2 * |CrLfs(s)| > |NewLines(s)| then "\r" else ""
  {
    NewLinesCounted(s);
    CrLfsCounted(s);
  }

  /** A line that the patch takes from the edited rendering is that line with the line end
      of the majority; a line of the original is that line itself. */
  lemma PatchedLineIs(original: string, r0: string, r1: string, t: nat)
    ensures var orig, a, b := TextLines(original), TextLines(WithoutCr(r0)), TextLines(WithoutCr(r1));
      var plan, lines := PatchPlan(orig, a, b), PatchedLines(original, r0, r1);
      && |lines| == |plan|
      && (t < |plan| && plan[t].FromOrig? ==> plan[t].k < |orig| && lines[t] == orig[plan[t].k])
      && (t < |plan| && plan[t].FromEdit? ==>
            && plan[t].j < |b|
            && lines[t] == b[plan[t].j] + if 2 * |CrLfs(original)| > |NewLines(original)| then "\r" else "")
  {
    hide PatchPlan, TextLines, WithoutCr, CountOf;
    PatchPlanInBounds(TextLines(original), TextLines(WithoutCr(r0)), TextLines(WithoutCr(r1)));
    NewLineEndIsMajority(original);
  }

  // ----- without carriage returns

  lemma {:induction false} SplitParts(s: string, c: char)
    requires c !in s || c == '\n'
    ensures forall k :: 0 <= k < |SplitNewlines(s)| ==> c !in SplitNewlines(s)[k]
  {
    if s != "" { SplitParts(s[1..], c); }
  }

  lemma LinesOf(s: string, c: char)
    requires c !in s || c == '\n'
    ensures forall k :: 0 <= k < |TextLines(s)| ==> c !in TextLines(s)[k]
  {
    SplitParts(TrimNewline(s), c);
  }

  lemma {:induction false} WithoutCrKeeps(s: string)
    requires '\r' !in s
    ensures WithoutCr(s) == s
  {
    if s != "" {
      PrefixIs(s);
      WithoutCrKeeps(s[1..]);
      assert s == [s[0]] + s[1..];
    }
  }

  /** A line end of a rendering loses its carriage return. */
  lemma {:induction false} WithoutCrDrops(a: string, b: string)
    ensures WithoutCr(a + "\r\n" + b) == WithoutCr(a) + "\n" + WithoutCr(b)
    decreases |a|
  {
    var s := a + "\r\n" + b;
    if a == "" {
      assert s[..2] == "\r\n" && s[2..] == b;
    } else if HasPrefix(a, "\r\n") {
      assert s[..2] == a[..2] && s[2..] == a[2..] + "\r\n" + b;
      WithoutCrDrops(a[2..], b);
    } else {
      assert s[1..] == a[1..] + "\r\n" + b;
      PrefixIs(a);
      PrefixIs(s);
      assert |a| > 1 ==> s[1] == a[1];
      WithoutCrDrops(a[1..], b);
    }
  }

  lemma {:induction false} JoinedWithout(lines: seq<string>, c: char)
    requires c != '\n' && forall k :: 0 <= k < |lines| ==> c !in lines[k]
    ensures c !in Join(lines, "\n")
  {
    if |lines| > 1 { JoinedWithout(lines[1..], c); }
  }

  /** Where neither the file nor the edited rendering has a carriage return, the patched
      file has none. */
  lemma NoCarriageReturns(original: string, r0: string, r1: string)
    requires '\r' !in original && '\r' !in r1
    ensures '\r' !in Assemble(PatchedLines(original, r0, r1), original)
  {
    hide PatchedLines;
    var lines := PatchedLines(original, r0, r1);
    forall t | 0 <= t < |lines| ensures '\r' !in lines[t] {
      LineWithoutCr(original, r0, r1, t);
    }
    JoinedWithout(lines, '\r');
  }

  lemma LineWithoutCr(original: string, r0: string, r1: string, t: nat)
    requires '\r' !in original && '\r' !in r1 && t < |PatchedLines(original, r0, r1)|
    ensures '\r' !in PatchedLines(original, r0, r1)[t]
  {
    hide PatchedLines, TextLines, WithoutCr, CrLfs, NewLines, PatchPlan;
    WithoutCrKeeps(r1);
    LinesOf(original, '\r');
    LinesOf(r1, '\r');
    NoCrLfs(original);
    PatchedLineIs(original, r0, r1, t);
    var orig, b := TextLines(original), TextLines(r1);
    var piece := PatchPlan(orig, TextLines(WithoutCr(r0)), b)[t];
    match piece
    case FromOrig(k) => assert PatchedLines(original, r0, r1)[t] == orig[k];
    case FromEdit(j) => assert b[j] + "" == b[j];
  }

  lemma NoCrLfs(s: string)
    requires '\r' !in s
    ensures |CrLfs(s)| == 0
  {
    assert CrLfs(s) == {};
  }

  // ----- a file whose newlines all follow a carriage return

  ghost predicate EveryCr(s: string) { forall i :: 0 <= i < |s| && s[i] == '\n' ==> i > 0 && s[i - 1] == '\r' }

  predicate EndsCr(line: string) { line != "" && line[|line| - 1] == '\r' }

  ghost predicate InnerEndCr(lines: seq<string>) { forall t :: 0 <= t < |lines| - 1 ==> EndsCr(lines[t]) }

  lemma EveryCrConcat(line: string, rest: string)
    requires '\n' !in line
    ensures EveryCr(line + "\n" + rest) <==> EndsCr(line) && (rest == "" || rest[0] != '\n') && EveryCr(rest)
  {
    var s, n := line + "\n" + rest, |line|;
    assert s[n] == '\n' && forall i :: 0 <= i < n ==> s[i] == line[i];
    assert forall i :: 0 <= i < |rest| ==> s[n + 1 + i] == rest[i];
    if EveryCr(s) {
      if rest != "" { assert s[n + 1] == rest[0]; }
      forall i | 0 <= i < |rest| && rest[i] == '\n' ensures i > 0 && rest[i - 1] == '\r' {
        assert s[n + 1 + i] == '\n' && s[n + i] == '\r';
      }
    }
    if EndsCr(line) && EveryCr(rest) {
      forall i | 0 <= i < |s| && s[i] == '\n' ensures i > 0 && s[i - 1] == '\r' {
        if i > n { assert rest[i - n - 1] == '\n'; }
      }
    }
  }

  ghost predicate SingleLines(lines: seq<string>) { forall k :: 0 <= k < |lines| ==> '\n' !in lines[k] }

  lemma {:induction false} JoinedEvery(lines: seq<string>)
    requires SingleLines(lines)
    ensures EveryCr(Join(lines, "\n")) <==> InnerEndCr(lines)
  {
    if |lines| > 1 {
      var rest := lines[1..];
      JoinedEvery(rest);
      EveryCrConcat(lines[0], Join(rest, "\n"));
      assert InnerEndCr(lines) <==> EndsCr(lines[0]) && InnerEndCr(rest) by {
        assert forall t :: 1 <= t < |lines| - 1 ==> lines[t] == rest[t - 1];
      }
      if |rest| > 1 { assert rest[0] == "" ==> !EndsCr(rest[0]); }
    }
  }

  lemma {:induction false} JoinedEnd(lines: seq<string>)
    requires SingleLines(lines)
    ensures EndsCr(Join(lines, "\n")) <==> lines != [] && EndsCr(lines[|lines| - 1])
  {
    if |lines| > 1 {
      JoinedEnd(lines[1..]);
      var rest := Join(lines[1..], "\n");
      assert rest != "" ==> (lines[0] + "\n" + rest)[|lines[0] + "\n" + rest| - 1] == rest[|rest| - 1];
    }
  }

  /** When the assembled text has a carriage return before every newline. */
  lemma AssembledEvery(lines: seq<string>, original: string)
    requires SingleLines(lines)
    ensures EveryCr(Assemble(lines, original)) <==>
      InnerEndCr(lines) && (HasSuffix(original, "\n") ==> lines != [] && EndsCr(lines[|lines| - 1]))
  {
    var text := Join(lines, "\n");
    JoinedEvery(lines);
    JoinedEnd(lines);
    TrailingNewline(text);
    assert text + "" == text;
  }

  lemma TrailingNewline(text: string)
    ensures EveryCr(text + "\n") <==> EveryCr(text) && EndsCr(text)
  {
    var s := text + "\n";
    assert s[|text|] == '\n' && forall i :: 0 <= i < |text| ==> s[i] == text[i];
    if EveryCr(s) {
      forall i | 0 <= i < |text| && text[i] == '\n' ensures i > 0 && text[i - 1] == '\r' { assert s[i] == '\n'; }
    }
  }

  lemma AllCr(s: string)
    requires EveryCr(s) && '\n' in s
    ensures 2 * |CrLfs(s)| > |NewLines(s)|
  {
    assert CrLfs(s) == NewLines(s);
    var i :| 0 <= i < |s| && s[i] == '\n';
    assert i in NewLines(s);
  }

  /** The last line of the original stands before another line of the patched file. */
  ghost predicate LastIsFollowed(plan: seq<Piece>, last: nat) {
    exists t :: 0 <= t < |plan| - 1 && plan[t] == FromOrig(last)
  }

  /** A file whose newlines all follow a carriage return keeps them so. If it ends in a
      newline the only exception is a patch that leaves no line at all; if it does not,
      the exception is that its last line, having no carriage return, is followed by
      another. */
  lemma CarriageReturnsKept(original: string, r0: string, r1: string)
    requires EveryCr(original) && '\n' in original
    ensures var orig, lines := TextLines(original), PatchedLines(original, r0, r1);
      var plan := PatchPlan(orig, TextLines(WithoutCr(r0)), TextLines(WithoutCr(r1)));
      var text := Assemble(lines, original);
      && orig != []
      && (HasSuffix(original, "\n") ==> (EveryCr(text) <==> text != "\n"))
      && (!HasSuffix(original, "\n") ==>
            (EveryCr(text) <==> EndsCr(orig[|orig| - 1]) || !LastIsFollowed(plan, |orig| - 1)))
  {
    hide PatchedLines, PatchPlan, TextLines, WithoutCr, CrLfs, NewLines, Join;
    var orig, lines := TextLines(original), PatchedLines(original, r0, r1);
    var b, plan := TextLines(WithoutCr(r1)), PatchPlan(orig, TextLines(WithoutCr(r0)), TextLines(WithoutCr(r1)));
    AllCr(original);
    LinesOf(original, '\n');
    LinesOf(WithoutCr(r1), '\n');
    AssembleTextLines(original);
    AssembledEvery(orig, original);
    SomeLines(original);
    forall t | 0 <= t < |lines|
      ensures |plan| == |lines| && '\n' !in lines[t]
      ensures !EndsCr(lines[t]) <==> plan[t] == FromOrig(|orig| - 1) && !EndsCr(orig[|orig| - 1])
    {
      PatchedLineIs(original, r0, r1, t);
      if plan[t].FromEdit? { WithEnd(b[plan[t].j]); }
    }
    PatchedLineIs(original, r0, r1, 0);
    AssembledEvery(lines, original);
    if HasSuffix(original, "\n") { LoneNewline(lines, original); }
  }

  lemma WithEnd(line: string)
    ensures EndsCr(line + "\r") && ('\n' in line + "\r" <==> '\n' in line)
  {
    assert forall i :: 0 <= i < |line| ==> (line + "\r")[i] == line[i];
  }

  lemma SomeLines(s: string)
    requires EveryCr(s) && '\n' in s
    ensures TextLines(s) != []
  {
    if HasSuffix(s, "\n") { assert s[|s| - 1] == s[|s| - 1..][0] == '\n'; }
  }

  lemma LoneNewline(lines: seq<string>, original: string)
    requires HasSuffix(original, "\n")
    ensures lines == [] ==> Assemble(lines, original) == "\n"
    ensures lines != [] && EndsCr(lines[|lines| - 1]) && SingleLines(lines) ==> Assemble(lines, original) != "\n"
  {
    if lines != [] && SingleLines(lines) { JoinedEnd(lines); }
  }

  /** The input that shows the exception: the last line "b" has no line end, "c" is added
      after it, and "b" gets a bare newline. */
  lemma LastLineExample()
    ensures var original := "\r\nb";
      && EveryCr(original) && '\n' in original
      && !EveryCr(Assemble(PatchedLines(original, "b\n", "b\nc\n"), original))
  {
    hide *;
    var original := "\r\nb";
    var orig, a, b := TextLines(original), TextLines(WithoutCr("b\n")), TextLines(WithoutCr("b\nc\n"));
    ExampleTexts();
    ExampleRenderings();
    ExamplePlan();
    assert PatchPlan(orig, a, b)[1] == FromOrig(|orig| - 1);
    FollowedAt(PatchPlan(orig, a, b), 1, 1);
    CarriageReturnsKept(original, "b\n", "b\nc\n");
  }

  lemma FollowedAt(plan: seq<Piece>, last: nat, t: nat)
    requires t < |plan| - 1 && plan[t] == FromOrig(last)
    ensures LastIsFollowed(plan, last)
  {
  }

  lemma ExampleTexts()
    ensures EveryCr("\r\nb") && '\n' in "\r\nb" && !HasSuffix("\r\nb", "\n") && !EndsCr("b")
    ensures TextLines("\r\nb") == ["\r", "b"]
  {
    hide TextLines, SplitNewlines;
    var s := "\r\nb";
    assert s[0] == '\r' && s[1] == '\n' && s[2] == 'b' && s[|s| - 1..] == "b";
    LinesAre(s, s);
    SplitEmpty();
    SplitCons('b', "");
    SplitCons('\n', "b");
    SplitCons('\r', "\nb");
    assert ['b'] + "" == "b" && ['\n'] + "b" == "\nb" && ['\r'] + "\nb" == s;
    assert ['\r'] + "" == "\r" && [""] + ["b"] == ["", "b"] && ["", "b"][1..] == ["b"];
    assert SplitNewlines(s) == ["\r", "b"];
  }

  lemma ExampleRenderings()
    ensures TextLines(WithoutCr("b\n")) == ["b"] && TextLines(WithoutCr("b\nc\n")) == ["b", "c"]
  {
    hide TextLines, SplitNewlines, WithoutCr;
    WithoutCrKeeps("b\n");
    WithoutCrKeeps("b\nc\n");
    LinesAre("b\n", "b");
    LinesAre("b\nc\n", "b\nc");
    SplitEmpty();
    SplitCons('b', "");
    SplitCons('c', "");
    SplitCons('\n', "c");
    SplitCons('b', "\nc");
    assert ['b'] + "" == "b" && ['c'] + "" == "c" && ['\n'] + "c" == "\nc" && ['b'] + "\nc" == "b\nc";
    assert [""] + ["c"] == ["", "c"] && ["", "c"][1..] == ["c"];
    assert SplitNewlines("b\nc") == ["b", "c"];
  }

  lemma LinesAre(s: string, t: string)
    requires t != "" && TrimNewline(s) == t
    ensures TextLines(s) == SplitNewlines(t)
  {
  }

  lemma SplitEmpty()
    ensures SplitNewlines("") == [""]
  {
  }

  lemma SplitCons(c: char, t: string)
    ensures var r := SplitNewlines(t);
      SplitNewlines([c] + t) == if c == '\n' then [""] + r else [[c] + r[0]] + r[1..]
  {
    assert ([c] + t)[1..] == t;
  }

  lemma ExamplePlan()
    ensures PatchPlan(["\r", "b"], ["b"], ["b", "c"]) == [FromOrig(0), FromOrig(1), FromEdit(1)]
  {
    var orig, a, b := ["\r", "b"], ["b"], ["b", "c"];
    hide Lcs, Script, Flush, Norm, TrimSpace, Plan, Anchors;
    ExampleAnchors();
    ScriptStep(a, b, 0, 0);
    ScriptStep(a, b, 1, 1);
    ScriptStep(a, b, 1, 2);
    var ops := [Keep(0, 0), Add(1, 1)];
    assert Script(a, b, 0, 0) == ops;
    var anchors := map[0 := 1];
    assert ops[0..] == ops && ops[1..] == [Add(1, 1)] && ops[2..] == [];
    PlanOpStep(ops, 0, anchors, -1, 2);
    PlanOpStep(ops, 1, anchors, 1, 2);
    EmptyPlan(anchors, 1, 2);
    FlushEmpty(anchors.Values, 2, 2);
    FlushEmpty(anchors.Values, 0, 0);
    FlushSnoc(anchors.Values, 0, 0);
    assert anchors.Values == {1};
    assert Flush(anchors.Values, 0, 1) == [FromOrig(0)];
    assert Plan(ops, anchors, -1, 2, true) == [FromOrig(0)] + [FromOrig(1)] + ([FromEdit(1)] + []);
  }

  lemma ExampleAnchors()
    ensures Anchors(["b"], ["\r", "b"]) == map[0 := 1]
  {
    var a, orig := ["b"], ["\r", "b"];
    hide Lcs, Script, Norm, TrimSpace, NonBlank, Meets;
    assert TrimSpace("\r") == "" && TrimSpace("b") == "b" by { Trims(); }
    NonBlankStep(orig, 0);
    NonBlankStep(orig, 1);
    NonBlankStep(orig, 2);
    assert NonBlank(orig, 0) == [1];
    var keys, lines := Keys(a), Keys(Select(orig, [1]));
    assert keys == [Norm("b")] == lines;
    ScriptStep(keys, lines, 0, 0);
    ScriptStep(keys, lines, 1, 1);
    var ops := [Keep(0, 0)];
    assert Script(keys, lines, 0, 0) == ops;
    MeetsStep(ops, map[]);
    MeetsEmpty();
    assert ops[1..] == [] && map[] + Meets(ops) == Meets(ops) == map[0 := 0];
  }

  lemma Trims()
    ensures TrimSpace("\r") == "" && TrimSpace("b") == "b"
  {
    assert TrimLeft("\r") == TrimLeft("\r"[1..]) == "";
    assert TrimLeft("b") == "b" && TrimRight("b") == "b";
  }
}
