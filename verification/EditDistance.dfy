/** editDistance of internal/server/server.go: the Levenshtein distance. */
module EditDistance {

  function Min(x: nat, y: nat): nat { if x < y then x else y }

  function Front(s: string): string requires s != "" { s[..|s| - 1] }

  function Last(s: string): char requires s != "" { s[|s| - 1] }

  function Cost(a: string, b: string): nat
    requires a != "" && b != ""
  {
    if Last(a) == Last(b) then 0 else 1
  }

  /** The recurrence the rows are filled by, on prefixes. */
  function Lev(a: string, b: string): nat
    decreases |a| + |b|
  {
    if a == "" then |b|
    else if b == "" then |a|
    else Min(Lev(Front(a), b) + 1, Min(Lev(a, Front(b)) + 1, Lev(Front(a), Front(b)) + Cost(a, b)))
  }

  lemma LevStep(a: string, b: string)
    requires a != "" && b != ""
    ensures Lev(a, b) ==
      Min(Lev(Front(a), b) + 1, Min(Lev(a, Front(b)) + 1, Lev(Front(a), Front(b)) + Cost(a, b)))
  {
    hide Min, Cost, Front, Last;
  }

  lemma LevPrefixes(a: string, b: string, i: nat, j: nat)
    requires i < |a| && j < |b|
    ensures Lev(a[..i + 1], b[..j + 1]) ==
      Min(Lev(a[..i], b[..j + 1]) + 1,
          Min(Lev(a[..i + 1], b[..j]) + 1, Lev(a[..i], b[..j]) + if a[i] == b[j] then 0 else 1))
  {
    hide Lev, Min;
    LevStep(a[..i + 1], b[..j + 1]);
    assert Front(a[..i + 1]) == a[..i] && Front(b[..j + 1]) == b[..j];
  }

  /** Row i of the table, up to column `done`. */
  ghost predicate Row(row: array<nat>, a: string, b: string, i: nat, done: nat)
    reads row
  {
    row.Length == |b| + 1 && i <= |a| && done <= |b| + 1 && forall j :: 0 <= j < done ==> row[j] == Lev(a[..i], b[..j])
  }

  method NextRow(a: string, b: string, prev: array<nat>, i: nat) returns (cur: array<nat>)
    requires 0 < i <= |a| && Row(prev, a, b, i - 1, |b| + 1)
    ensures fresh(cur) && Row(cur, a, b, i, |b| + 1)
  {
    hide Lev, Min;
    cur := new nat[|b| + 1];
    cur[0] := i;
    LevToEmpty(a[..i]);
    assert b[..0] == "";
    for j := 1 to |b| + 1
      invariant Row(cur, a, b, i, j)
    {
      var cost := if a[i - 1] == b[j - 1] then 0 else 1;
      LevPrefixes(a, b, i - 1, j - 1);
      assert prev[j] == Lev(a[..i - 1], b[..j]) && prev[j - 1] == Lev(a[..i - 1], b[..j - 1]);
      cur[j] := Min(prev[j] + 1, Min(cur[j - 1] + 1, prev[j - 1] + cost));
    }
  }

  method EditDistance(a: string, b: string) returns (d: nat)
    ensures d == Lev(a, b)
  {
    hide Lev, Min;
    var prev := new nat[|b| + 1](j => j);
    assert Row(prev, a, b, 0, |b| + 1) by {
      forall j | 0 <= j < |b| + 1 ensures Lev(a[..0], b[..j]) == j { LevOfEmpty(b[..j]); }
    }
    for i := 1 to |a| + 1
      invariant Row(prev, a, b, i - 1, |b| + 1)
    {
      prev := NextRow(a, b, prev, i);
    }
    assert a[..|a|] == a && b[..|b|] == b;
    d := prev[|b|];
  }

  lemma LevToEmpty(a: string)
    ensures Lev(a, "") == |a|
  {
  }

  lemma LevOfEmpty(b: string)
    ensures Lev("", b) == |b|
  {
  }

  // ----- least number of single-byte edits

  /** t is s with `out` characters at i replaced by `into` characters. */
  ghost predicate EditAt(s: string, t: string, i: nat, out: nat, into: nat) {
    && i + out <= |s| && i + into <= |t|
    && s[..i] == t[..i] && s[i + out..] == t[i + into..]
  }

  /** One insertion (0, 1), deletion (1, 0) or substitution (1, 1). */
  ghost predicate OneEdit(s: string, t: string) {
    exists i: nat, out: nat, into: nat :: out <= 1 && into <= 1 && EditAt(s, t, i, out, into)
  }

  /** c leads from a to b by single edits. */
  ghost predicate Script(c: seq<string>, a: string, b: string) {
    && c != [] && c[0] == a && c[|c| - 1] == b
    && forall k :: 0 <= k < |c| - 1 ==> OneEdit(c[k], c[k + 1])
  }

  lemma {:induction false} LevSelf(a: string)
    ensures Lev(a, a) == 0
  {
    if a != "" { LevSelf(Front(a)); }
  }

  lemma LevDropLast(a: string, t: string)
    requires a != ""
    ensures Lev(a, t) <= Lev(Front(a), t) + 1
  {
  }

  lemma LevAddLast(a: string, t: string)
    requires t != ""
    ensures Lev(a, t) <= Lev(a, Front(t)) + 1
  {
  }

  lemma LevBoth(a: string, t: string)
    requires a != "" && t != ""
    ensures Lev(a, t) <= Lev(Front(a), Front(t)) + Cost(a, t)
  {
  }

  /** An edit of the target changes the distance by at most one. */
  lemma {:induction false} EditMovesByOne(a: string, s: string, t: string, i: nat, out: nat, into: nat)
    requires out <= 1 && into <= 1 && EditAt(s, t, i, out, into)
    ensures Lev(a, t) <= Lev(a, s) + 1
    decreases |a| + |s|
  {
    if i + out < |s| {
      InnerEdit(s, t, i, out, into);
      if a != "" {
        EditMovesByOne(Front(a), s, t, i, out, into);
        EditMovesByOne(a, Front(s), Front(t), i, out, into);
        EditMovesByOne(Front(a), Front(s), Front(t), i, out, into);
        hide EditAt, OneEdit;
      }
    } else {
      EndEdit(s, t, i, out, into);
      if a != "" && s != "" && out == 1 {
        EditMovesByOne(Front(a), s, t, i, out, into);
        LevDropLast(a, t);
        if into == 1 {
          LevAddLast(a, t);
          LevBoth(a, t);
        } else {
          LevDropLast(a, Front(s));
        }
      } else if out == 0 && into == 1 {
        LevAddLast(a, t);
      }
    }
  }

  lemma InnerEdit(s: string, t: string, i: nat, out: nat, into: nat)
    requires EditAt(s, t, i, out, into) && i + out < |s|
    ensures t != "" && Last(s) == Last(t) && EditAt(Front(s), Front(t), i, out, into)
  {
    assert s[i + out..][|s| - i - out - 1] == Last(s) && t[i + into..][|t| - i - into - 1] == Last(t);
    assert Front(s)[..i] == s[..i] && Front(t)[..i] == t[..i];
    assert Front(s)[i + out..] == s[i + out..][..|s| - i - out - 1] == t[i + into..][..|t| - i - into - 1] ==
      Front(t)[i + into..];
  }

  /** An edit at the end of the text. */
  lemma EndEdit(s: string, t: string, i: nat, out: nat, into: nat)
    requires out <= 1 && into <= 1 && EditAt(s, t, i, out, into) && i + out == |s|
    ensures i + into == |t|
    ensures out == 1 ==> Front(s) == if into == 1 then Front(t) else t
    ensures out == 0 ==> s == if into == 1 then Front(t) else t
  {
  }

  lemma {:induction false} ScriptAtLeast(c: seq<string>, a: string, b: string)
    requires Script(c, a, b)
    ensures Lev(a, b) <= |c| - 1
    decreases |c|
  {
    if |c| == 1 {
      LevSelf(a);
    } else {
      var n := |c| - 1;
      var s := c[n - 1];
      assert c[..n][n - 1] == s;
      ScriptAtLeast(c[..n], a, s);
      assert OneEdit(c[n - 1], c[n - 1 + 1]);
      var i: nat, out: nat, into: nat :| out <= 1 && into <= 1 && EditAt(s, b, i, out, into);
      EditMovesByOne(a, s, b, i, out, into);
    }
  }

  lemma ScriptSnoc(c: seq<string>, a: string, s: string, b: string, i: nat, out: nat, into: nat)
    requires Script(c, a, s) && out <= 1 && into <= 1 && EditAt(s, b, i, out, into)
    ensures Script(c + [b], a, b)
  {
  }

  lemma ScriptCons(c: seq<string>, a: string, s: string, b: string, i: nat, out: nat, into: nat)
    requires Script(c, s, b) && out <= 1 && into <= 1 && EditAt(a, s, i, out, into)
    ensures Script([a] + c, a, b)
  {
  }

  ghost function Suffixed(c: seq<string>, x: char): (d: seq<string>)
    ensures |d| == |c| && forall k :: 0 <= k < |c| ==> d[k] == c[k] + [x]
  {
    seq(|c|, k requires 0 <= k < |c| => c[k] + [x])
  }

  lemma ScriptSuffix(c: seq<string>, a: string, b: string, x: char)
    requires Script(c, a, b)
    ensures Script(Suffixed(c, x), a + [x], b + [x])
  {
    var d := Suffixed(c, x);
    forall k | 0 <= k < |d| - 1 ensures OneEdit(d[k], d[k + 1]) {
      assert OneEdit(c[k], c[k + 1]);
      var i: nat, out: nat, into: nat :| out <= 1 && into <= 1 && EditAt(c[k], c[k + 1], i, out, into);
      assert d[k][..i] == c[k][..i] && d[k + 1][..i] == c[k + 1][..i];
      assert d[k][i + out..] == c[k][i + out..] + [x] && d[k + 1][i + into..] == c[k + 1][i + into..] + [x];
      assert EditAt(d[k], d[k + 1], i, out, into);
    }
  }

  lemma LastEdits(b: string)
    requires b != ""
    ensures EditAt(Front(b), b, |b| - 1, 0, 1) && EditAt(b, Front(b), |b| - 1, 1, 0)
  {
  }

  lemma ScriptByLast(c: seq<string>, a: string, b: string) returns (d: seq<string>)
    requires a != "" && b != "" && Script(c, Front(a), Front(b))
    ensures Script(d, a, b) && |d| == |c| + Cost(a, b)
  {
    hide Script;
    var s := Front(b) + [Last(a)];
    assert Front(a) + [Last(a)] == a && Front(b) + [Last(b)] == b;
    ScriptSuffix(c, Front(a), Front(b), Last(a));
    d := Suffixed(c, Last(a));
    if Last(a) != Last(b) {
      assert EditAt(s, b, |b| - 1, 1, 1);
      ScriptSnoc(d, a, s, b, |b| - 1, 1, 1);
      d := d + [b];
    }
  }

  lemma {:induction false} ScriptExists(a: string, b: string) returns (c: seq<string>)
    ensures Script(c, a, b) && |c| - 1 == Lev(a, b)
    decreases |a| + |b|
  {
    if a == "" && b == "" {
      c := [a];
    } else if b != "" && (a == "" || Lev(a, b) == Lev(a, Front(b)) + 1) {
      c := ScriptExists(a, Front(b));
      LastEdits(b);
      ScriptSnoc(c, a, Front(b), b, |b| - 1, 0, 1);
      c := c + [b];
    } else if b == "" || Lev(a, b) == Lev(Front(a), b) + 1 {
      c := ScriptExists(Front(a), b);
      LastEdits(a);
      ScriptCons(c, a, Front(a), b, |a| - 1, 1, 0);
      c := [a] + c;
    } else {
      c := ScriptExists(Front(a), Front(b));
      c := ScriptByLast(c, a, b);
    }
  }

  /** editDistance is the least number of single-byte edits from a to b. */
  lemma LevIsLeastScript(a: string, b: string)
    ensures exists c :: Script(c, a, b) && |c| - 1 == Lev(a, b)
    ensures forall c :: Script(c, a, b) ==> Lev(a, b) <= |c| - 1
  {
    var c := ScriptExists(a, b);
    forall d | Script(d, a, b) ensures Lev(a, b) <= |d| - 1 { ScriptAtLeast(d, a, b); }
  }

  lemma LevSymmetric(a: string, b: string)
    ensures Lev(a, b) == Lev(b, a)
  {
  }

  lemma LevTriangle(a: string, b: string, z: string)
    ensures Lev(a, z) <= Lev(a, b) + Lev(b, z)
  {
    var c := ScriptExists(a, b);
    var d := ScriptExists(b, z);
    var e := c + d[1..];
    forall k | 0 <= k < |e| - 1 ensures OneEdit(e[k], e[k + 1]) {
      if k < |c| - 1 {
        assert OneEdit(c[k], c[k + 1]);
      } else {
        var l := k - (|c| - 1);
        assert e[k] == d[l] && e[k + 1] == d[l + 1];
        assert OneEdit(d[l], d[l + 1]);
      }
    }
    assert e[|e| - 1] == z;
    ScriptAtLeast(e, a, z);
  }

  /** Lengths alone already bound the distance from below. */
  lemma {:induction false} LevAtLeastGap(a: string, b: string)
    ensures |a| - |b| <= Lev(a, b) && |b| - |a| <= Lev(a, b)
    decreases |a| + |b|
  {
    if a != "" && b != "" {
      LevAtLeastGap(Front(a), b);
      LevAtLeastGap(a, Front(b));
      LevAtLeastGap(Front(a), Front(b));
    }
  }
}
