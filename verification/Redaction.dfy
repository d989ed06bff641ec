/** The outbound redaction of internal/secrets/resolver.go. */
module Redaction {
  import opened Strings

  const PLACEHOLDER := "***"
  const MIN_SECRET := 5

  /** bytes.ReplaceAll with the placeholder: leftmost matches, no overlaps. */
  function ReplaceAll(s: string, v: string): string
    requires v != ""
    decreases |s|
  {
    if |s| < |v| then s
    else if s[..|v|] == v then PLACEHOLDER + ReplaceAll(s[|v|..], v)
    else [s[0]] + ReplaceAll(s[1..], v)
  }

  /** The first occurrence gives way to "***" and the rest is searched on; a text without the
      value stays as it is. */
  lemma {:induction false} ReplaceFirst(s: string, v: string, i: nat)
    requires v != "" && ContainsAt(s, v, i) && forall k: nat :: k < i ==> !ContainsAt(s, v, k)
    ensures ReplaceAll(s, v) == s[..i] + "***" + ReplaceAll(s[i + |v|..], v)
    decreases i
  {
    hide ReplaceAll, ContainsAt, HasPrefix;
    Fits(s, v, i);
    AtStart(s, v);
    if i == 0 {
      ReplaceAtStart(s, v);
    } else {
      ReplaceSkips(s, v);
      forall k: nat | k < i - 1 ensures !ContainsAt(s[1..], v, k) { Shift(s, v, 1, k); }
      Shift(s, v, 1, i - 1);
      ReplaceFirst(s[1..], v, i - 1);
      Prepended(s, i, i + |v|, ReplaceAll(s[i + |v|..], v));
    }
  }

  lemma ReplaceAtStart(s: string, v: string)
    requires v != "" && HasPrefix(s, v)
    ensures ReplaceAll(s, v) == s[..0] + "***" + ReplaceAll(s[|v|..], v)
  {
    assert s[..0] + "***" == "***";
  }

  lemma Prepended(s: string, i: nat, n: nat, t: string)
    requires 0 < i <= n <= |s|
    ensures s[1..][n - 1..] == s[n..]
    ensures [s[0]] + (s[1..][..i - 1] + "***" + t) == s[..i] + "***" + t
  {
    assert [s[0]] + s[1..][..i - 1] == s[..i];
  }

  lemma Fits(s: string, v: string, i: nat)
    requires ContainsAt(s, v, i)
    ensures i + |v| <= |s|
  {
  }

  lemma ReplaceSkips(s: string, v: string)
    requires v != "" && |s| >= |v| && !HasPrefix(s, v)
    ensures ReplaceAll(s, v) == [s[0]] + ReplaceAll(s[1..], v)
  {
  }

  lemma {:induction false} ReplaceNone(s: string, v: string)
    requires v != "" && !Occurs(v, s)
    ensures ReplaceAll(s, v) == s
    decreases |s|
  {
    if |s| >= |v| {
      hide ReplaceAll, ContainsAt;
      assert !HasPrefix(s, v) by { AtStart(s, v); }
      ReplaceSkips(s, v);
      forall k: nat ensures !ContainsAt(s[1..], v, k) { Shift(s, v, 1, k); }
      ReplaceNone(s[1..], v);
      assert [s[0]] + s[1..] == s;
    }
  }

  function RedactAll(s: string, values: seq<string>): string
    decreases values
  {
    if values == [] then s
    else RedactAll(if values[0] == "" then s else ReplaceAll(s, values[0]), values[1..])
  }

  ghost predicate Occurs(w: string, s: string) {
    exists i: nat :: ContainsAt(s, w, i)
  }

  predicate Starless(v: string) { '*' !in v }

  /** No placeholder can complete it: no '*' at either end and no placeholder inside. */
  ghost predicate Solid(v: string) {
    v != "" && v[0] != '*' && EndsSolid(v)
  }

  ghost predicate EndsSolid(v: string) {
    (v != "" ==> v[|v| - 1] != '*') && !Occurs(PLACEHOLDER, v)
  }

  lemma StarlessIsSolid(v: string)
    requires Starless(v) && v != ""
    ensures Solid(v)
  {
    if Occurs(PLACEHOLDER, v) {
      var i: nat :| ContainsAt(v, PLACEHOLDER, i);
      CharAt(v, PLACEHOLDER, i, 0);
    }
  }

  lemma CharAt(s: string, w: string, i: nat, k: nat)
    requires ContainsAt(s, w, i) && k < |w|
    ensures i + k < |s| && s[i + k] == w[k]
  {
    assert s[i + k] == s[i..i + |w|][k];
  }

  lemma EndsSolidTail(v: string)
    requires v != "" && EndsSolid(v)
    ensures EndsSolid(v[1..])
  {
    forall i: nat ensures !ContainsAt(v[1..], PLACEHOLDER, i) { Shift(v, PLACEHOLDER, 1, i); }
  }

  lemma NoPlaceholderPrefix(v: string, r: string)
    requires EndsSolid(v) && HasPrefix(r, PLACEHOLDER) && HasPrefix(r, v)
    ensures v == ""
  {
    PlaceholderPrefix(v, r);
  }

  lemma PlaceholderPrefix(v: string, r: string)
    requires HasPrefix(r, PLACEHOLDER) && HasPrefix(r, v)
    ensures |v| >= 3 ==> ContainsAt(v, PLACEHOLDER, 0)
    ensures 0 < |v| < 3 ==> v[|v| - 1] == '*'
  {
    assert forall i :: 0 <= i < |v| ==> v[i] == r[..|v|][i] == r[i];
    assert forall i :: 0 <= i < 3 ==> r[i] == r[..3][i] == '*';
    if |v| >= 3 { assert v[0..0 + 3] == PLACEHOLDER; }
  }

  lemma {:induction false} SolidPrefix(s: string, v: string, w: string)
    requires v != "" && EndsSolid(w) && HasPrefix(ReplaceAll(s, v), w)
    ensures HasPrefix(s, w)
    decreases |s|
  {
    hide EndsSolid;
    if |s| >= |v| && w != "" {
      var r := ReplaceAll(s, v);
      if s[..|v|] == v {
        NoPlaceholderPrefix(w, r);
      } else {
        assert w[0] == r[..|w|][0] == r[0];
        assert r[1..] == ReplaceAll(s[1..], v);
        assert r[1..][..|w| - 1] == r[..|w|][1..] == w[1..];
        EndsSolidTail(w);
        SolidPrefix(s[1..], v, w[1..]);
        assert s[..|w|] == [s[0]] + s[1..][..|w| - 1];
        assert w == [w[0]] + w[1..];
      }
    }
  }

  lemma Shift(s: string, w: string, n: nat, i: nat)
    requires n <= |s|
    ensures ContainsAt(s[n..], w, i) <==> ContainsAt(s, w, n + i)
  {
  }

  lemma PastPlaceholder(r: string, w: string, i: nat)
    requires HasPrefix(r, PLACEHOLDER) && w != "" && w[0] != '*' && ContainsAt(r, w, i)
    ensures i >= 3
  {
    assert r[i..i + |w|][0] == r[i] == w[0];
    assert r[..3][0] == r[0] == '*' && r[..3][1] == r[1] == '*' && r[..3][2] == r[2] == '*';
  }

  lemma ReplaceMatch(s: string, v: string)
    requires v != "" && HasPrefix(s, v)
    ensures HasPrefix(ReplaceAll(s, v), PLACEHOLDER) && ReplaceAll(s, v)[3..] == ReplaceAll(s[|v|..], v)
  {
  }

  lemma ReplaceSkip(s: string, v: string)
    requires v != "" && |s| >= |v| && !HasPrefix(s, v)
    ensures ReplaceAll(s, v) != "" && ReplaceAll(s, v)[0] == s[0] && ReplaceAll(s, v)[1..] == ReplaceAll(s[1..], v)
  {
  }

  /** Replacing whatever value never creates an occurrence of a solid text. */
  lemma {:induction false} ReplaceCreatesNothing(s: string, v: string, w: string, i: nat)
    requires v != "" && Solid(w) && ContainsAt(ReplaceAll(s, v), w, i)
    ensures Occurs(w, s)
    decreases |s|
  {
    var r := ReplaceAll(s, v);
    if |s| >= |v| {
      hide ReplaceAll, ContainsAt, EndsSolid;
      if HasPrefix(s, v) {
        ReplaceMatch(s, v);
        PastPlaceholder(r, w, i);
        Shift(r, w, 3, i - 3);
        ReplaceCreatesNothing(s[|v|..], v, w, i - 3);
        var j: nat :| ContainsAt(s[|v|..], w, j);
        Shift(s, w, |v|, j);
      } else if i == 0 {
        AtStart(r, w);
        SolidPrefix(s, v, w);
        AtStart(s, w);
      } else {
        ReplaceSkip(s, v);
        Shift(r, w, 1, i - 1);
        ReplaceCreatesNothing(s[1..], v, w, i - 1);
        var j: nat :| ContainsAt(s[1..], w, j);
        Shift(s, w, 1, j);
      }
    }
  }

  lemma AtStart(s: string, w: string)
    ensures ContainsAt(s, w, 0) <==> HasPrefix(s, w)
  {
  }

  /** After replacing a solid v, no v is left. */
  lemma {:induction false} ReplaceRemoves(s: string, v: string, i: nat)
    requires Solid(v)
    ensures !ContainsAt(ReplaceAll(s, v), v, i)
    decreases |s|
  {
    var r := ReplaceAll(s, v);
    if |s| >= |v| && ContainsAt(r, v, i) {
      if HasPrefix(s, v) {
        ReplaceMatch(s, v);
        PastPlaceholder(r, v, i);
        Shift(r, v, 3, i - 3);
        ReplaceRemoves(s[|v|..], v, i - 3);
      } else if i == 0 {
        SolidPrefix(s, v, v);
      } else {
        ReplaceSkip(s, v);
        Shift(r, v, 1, i - 1);
        ReplaceRemoves(s[1..], v, i - 1);
      }
    }
  }

  lemma {:induction false} RedactCreatesNothing(s: string, values: seq<string>, w: string)
    requires Solid(w) && !Occurs(w, s)
    ensures !Occurs(w, RedactAll(s, values))
    decreases values
  {
    hide Solid;
    if values != [] && values[0] != "" {
      var r := ReplaceAll(s, values[0]);
      if Occurs(w, r) {
        var i: nat :| ContainsAt(r, w, i);
        ReplaceCreatesNothing(s, values[0], w, i);
      }
      RedactCreatesNothing(r, values[1..], w);
    } else if values != [] {
      RedactCreatesNothing(s, values[1..], w);
    }
  }

  /** The output of Redact does not contain a solid registered value, whatever
      else is registered. */
  lemma {:induction false} RedactHides(s: string, values: seq<string>, k: nat)
    requires k < |values| && Solid(values[k])
    ensures !Occurs(values[k], RedactAll(s, values))
    decreases values
  {
    var r := if values[0] == "" then s else ReplaceAll(s, values[0]);
    if k == 0 {
      forall i: nat ensures !ContainsAt(r, values[0], i) { ReplaceRemoves(s, values[0], i); }
      RedactCreatesNothing(r, values[1..], values[0]);
    } else {
      RedactHides(r, values[1..], k - 1);
    }
  }

  lemma {:induction false} ReplaceNeverGrows(s: string, v: string)
    requires |v| >= |PLACEHOLDER|
    ensures |ReplaceAll(s, v)| <= |s|
    decreases |s|
  {
    if |s| >= |v| {
      if s[..|v|] == v { ReplaceNeverGrows(s[|v|..], v); } else { ReplaceNeverGrows(s[1..], v); }
    }
  }

  lemma {:induction false} RedactNeverGrows(s: string, values: seq<string>)
    requires forall k :: 0 <= k < |values| ==> |values[k]| >= MIN_SECRET
    ensures |RedactAll(s, values)| <= |s|
    decreases values
  {
    if values != [] {
      ReplaceNeverGrows(s, values[0]);
      RedactNeverGrows(ReplaceAll(s, values[0]), values[1..]);
    }
  }

  // ----- any other value can reappear

  lemma {:induction false} Untouched(s: string, v: string)
    requires v != "" && !Occurs(v, s)
    ensures ReplaceAll(s, v) == s
    decreases |s|
  {
    if |s| >= |v| {
      assert s[0..0 + |v|] == s[..|v|] && !ContainsAt(s, v, 0);
      forall i: nat ensures !ContainsAt(s[1..], v, i) { Shift(s, v, 1, i); }
      Untouched(s[1..], v);
      assert s == [s[0]] + s[1..];
    }
  }

  function Block(c: char, n: nat): string { seq(n, _ => c) }

  lemma BlockChars(p: string, c: char, n: nat, q: string)
    ensures forall k :: |p| <= k < |p| + n ==> (p + Block(c, n) + q)[k] == c
  {
  }

  lemma TooShort(s: string, v: string)
    requires |s| < |v|
    ensures ReplaceAll(s, v) == s
  {
  }

  /** The block is replaced where it was put, and nowhere else. */
  lemma {:induction false} BlockReplaced(p: string, c: char, n: nat, q: string)
    requires n > |p| + |q| && (p != "" ==> p[|p| - 1] != c)
    ensures ReplaceAll(p + Block(c, n) + q, Block(c, n)) == p + PLACEHOLDER + q
  {
    hide ReplaceAll;
    var x := Block(c, n);
    var s := p + x + q;
    var r := ReplaceAll(s, x);
    if p == "" {
      assert s[..|x|] == x && s[|x|..] == q;
      ReplaceMatch(s, x);
      TooShort(q, x);
      assert r == r[..3] + r[3..];
    } else {
      assert s[..|x|][|p| - 1] == p[|p| - 1] != x[|p| - 1];
      assert s[1..] == p[1..] + x + q;
      ReplaceSkip(s, x);
      BlockReplaced(p[1..], c, n, q);
      assert r == [s[0]] + r[1..] && p == [p[0]] + p[1..];
    }
  }

  /** A text with a '*' between p and q does not occur once a block takes its place. */
  lemma BlockHides(p: string, mark: string, q: string, c: char, n: nat)
    requires mark != "" && mark[0] == '*' && c != '*'
    ensures !Occurs(p + mark + q, p + Block(c, n) + q)
  {
    var w, s := p + mark + q, p + Block(c, n) + q;
    assert w[|p|] == '*';
    BlockChars(p, c, n, q);
    if Occurs(w, s) {
      var i: nat :| ContainsAt(s, w, i);
      CharAt(s, w, i, |p|);
    }
  }

  /** The values Taint registers are long enough. */
  ghost predicate AllLong(values: seq<string>) {
    forall k :: 0 <= k < |values| ==> |values[k]| >= MIN_SECRET
  }

  /** A registered text made of p, a mark and q that a placeholder between p and q
      completes: replacing a block registered after it brings it about. */
  lemma MarkReappears(p: string, mark: string, q: string)
    requires mark != "" && mark[0] == '*' && |p + mark + q| >= MIN_SECRET
    requires Occurs(p + mark + q, p + PLACEHOLDER + q)
    ensures exists s, values ::
      (p + mark + q) in values && AllLong(values) && Occurs(p + mark + q, RedactAll(s, values))
  {
    var w := p + mark + q;
    var c, n := if p != "" && p[|p| - 1] == 'a' then 'b' else 'a', |w| + MIN_SECRET;
    var x := Block(c, n);
    var s := p + x + q;
    BlockHides(p, mark, q, c, n);
    Untouched(s, w);
    BlockReplaced(p, c, n, q);
    assert [w, x][1..] == [x] && [x][1..] == [];
    assert RedactAll(s, [w, x]) == RedactAll(s, [x]) == RedactAll(p + PLACEHOLDER + q, []);
    assert w in [w, x] && AllLong([w, x]);
  }

  /** Redaction hides a registered value from all data, whatever else is registered,
      exactly when the value is solid. */
  lemma HiddenIffSolid(w: string)
    requires |w| >= MIN_SECRET
    ensures Solid(w) <==>
      forall s, values :: w in values && AllLong(values) ==> !Occurs(w, RedactAll(s, values))
  {
    if Solid(w) {
      forall s, values | w in values && AllLong(values) ensures !Occurs(w, RedactAll(s, values)) {
        var k :| 0 <= k < |values| && values[k] == w;
        RedactHides(s, values, k);
      }
    } else if w[0] == '*' {
      var q := w[1..];
      assert "" + "*" + q == w && ContainsAt("" + PLACEHOLDER + q, w, 2);
      MarkReappears("", "*", q);
    } else if w[|w| - 1] == '*' {
      var p := w[..|w| - 1];
      assert p + "*" + "" == w && ContainsAt(p + PLACEHOLDER + "", w, 0);
      MarkReappears(p, "*", "");
    } else {
      var i: nat :| ContainsAt(w, PLACEHOLDER, i);
      var p, q := w[..i], w[i + 3..];
      assert p + PLACEHOLDER + q == w && ContainsAt(w, w, 0);
      MarkReappears(p, PLACEHOLDER, q);
    }
  }

  /** For one: replacing the second value completes the first, whose turn is over. */
  lemma StarsCanReappear()
    ensures Occurs("***xx", RedactAll("secretxx", ["***xx", "secret"]))
  {
    var s, w := "secretxx", "***xx";
    if Occurs(w, s) {
      var i: nat :| ContainsAt(s, w, i);
      CharAt(s, w, i, 0);
    }
    Untouched(s, w);
    assert ReplaceAll("xx", "secret") == "xx" && s[..6] == "secret" && s[6..] == "xx";
    assert [w, "secret"][1..] == ["secret"];
    assert RedactAll(s, [w, "secret"]) == RedactAll(s, ["secret"]) == RedactAll(w, []);
    assert ContainsAt(w, w, 0);
  }
}
