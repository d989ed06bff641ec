/** JQL scoping of internal/policy/registry.go: splitJQLOrderBy and JQLScopeConstraint.Check. */
module JqlScope {
  import opened Strings

  // ----- quotes and parentheses

  /** Scanner state: outside quotes at some depth, inside a quote, or refused. */
  datatype Scan = Bad | Open(depth: nat) | Quoted(quote: char, escaped: bool, depth: nat)

  function Step(st: Scan, c: char): Scan {
    match st
    case Bad => Bad
    case Quoted(q, escaped, d) =>
      if escaped then Quoted(q, false, d)
      else if c == '\\' then Quoted(q, true, d)
      else if c == q then Open(d) else st
    case Open(d) =>
      if c == '"' || c == '\'' then Quoted(c, false, d)
      else if c == '(' then Open(d + 1)
      else if c == ')' then (if d == 0 then Bad else Open(d - 1))
      else st
  }

  function Run(st: Scan, s: string): Scan
    decreases |s|
  {
    if s == "" then st else Run(Step(st, s[0]), s[1..])
  }

  lemma {:induction false} RunConcat(st: Scan, s: string, t: string)
    ensures Run(st, s + t) == Run(Run(st, s), t)
    decreases |s|
  {
    if s == "" {
      assert s + t == t;
    } else {
      assert (s + t)[0] == s[0] && (s + t)[1..] == s[1..] + t;
      RunConcat(Step(st, s[0]), s[1..], t);
    }
  }

  lemma RunOne(st: Scan, c: char)
    ensures Run(st, [c]) == Step(st, c)
  {
  }

  lemma {:induction false} RunBad(s: string)
    ensures Run(Bad, s) == Bad
    decreases |s|
  {
    if s != "" { RunBad(s[1..]); }
  }

  // ----- ORDER BY

  predicate IsWordByte(c: char) {
    c == '_' || '0' <= c <= '9' || 'a' <= c <= 'z' || 'A' <= c <= 'Z'
  }

  /** RE2's \s: every white space but the vertical tab. */
  predicate IsPatternSpace(c: char) { IsSpace(c) && c != '\U{0B}' }

  function SkipSpaces(s: string): string {
    if s != "" && IsPatternSpace(s[0]) then SkipSpaces(s[1..]) else s
  }

  /** The pattern (?i)^order\s+by\b. */
  predicate StartsOrderBy(s: string) {
    && |s| > 5 && Lower(s[..5]) == "order" && IsPatternSpace(s[5])
    && var r := SkipSpaces(s[5..]);
       |r| >= 2 && Lower(r[..2]) == "by" && (|r| == 2 || !IsWordByte(r[2]))
  }

  predicate PatternSpace(s: string, from: nat, n: nat) {
    from + n <= |s| && forall i :: from <= i < from + n ==> s[i] in " \t\n\r\U{0C}"
  }

  predicate OrderWord(s: string) {
    |s| >= 5 && s[0] in "oO" && s[1] in "rR" && s[2] in "dD" && s[3] in "eE" && s[4] in "rR"
  }

  predicate ByWord(s: string, i: nat) {
    && i + 2 <= |s| && s[i] in "bB" && s[i + 1] in "yY"
    && (i + 2 == |s| || !IsWordByte(s[i + 2]))
  }

  lemma FoldsTo(c: char, lower: char, upper: char)
    requires 'a' <= lower <= 'z' && upper as int == lower as int - 32
    ensures LowerChar(c) == lower <==> c in [lower, upper]
  {
  }

  lemma OrderWordMeans(s: string)
    ensures |s| >= 5 && Lower(s[..5]) == "order" <==> OrderWord(s)
  {
    if |s| >= 5 {
      hide LowerChar;
      FoldsTo(s[0], 'o', 'O');
      FoldsTo(s[1], 'r', 'R');
      FoldsTo(s[2], 'd', 'D');
      FoldsTo(s[3], 'e', 'E');
      FoldsTo(s[4], 'r', 'R');
      var t, w := Lower(s[..5]), "order";
      assert t == w <==> t[0] == w[0] && t[1] == w[1] && t[2] == w[2] && t[3] == w[3] && t[4] == w[4];
    }
  }

  lemma ByWordMeans(s: string, i: nat)
    requires i <= |s|
    ensures var r := s[i..];
      |r| >= 2 && Lower(r[..2]) == "by" && (|r| == 2 || !IsWordByte(r[2])) <==> ByWord(s, i)
  {
    if i + 2 <= |s| {
      hide LowerChar;
      FoldsTo(s[i], 'b', 'B');
      FoldsTo(s[i + 1], 'y', 'Y');
      var t, w := Lower(s[i..][..2]), "by";
      assert t == w <==> t[0] == w[0] && t[1] == w[1];
    }
  }

  lemma {:induction false} SkipSpacesIs(s: string) returns (n: nat)
    ensures n <= |s| && SkipSpaces(s) == s[n..] && PatternSpace(s, 0, n)
    ensures n < |s| ==> !IsPatternSpace(s[n])
  {
    if s != "" && IsPatternSpace(s[0]) {
      var m := SkipSpacesIs(s[1..]);
      n := m + 1;
    } else {
      n := 0;
    }
  }

  /** The two words in any case, white space between them, and no word byte after them. */
  lemma OrderByMeans(s: string)
    ensures StartsOrderBy(s) <==>
      OrderWord(s) && exists n: nat :: n > 0 && PatternSpace(s, 5, n) && ByWord(s, 5 + n)
  {
    hide Lower, SkipSpaces;
    OrderWordMeans(s);
    if |s| >= 5 {
      var n := SkipSpacesIs(s[5..]);
      assert s[5..][n..] == s[5 + n..];
      ByWordMeans(s, 5 + n);
      SpacesFrom(s, n);
      if StartsOrderBy(s) {
        assert s[5..][0] == s[5];
        assert n > 0 && PatternSpace(s, 5, n) && ByWord(s, 5 + n);
      }
      if m: nat :| m > 0 && PatternSpace(s, 5, m) && ByWord(s, 5 + m) {
        assert m == n by { SpacesEnd(s, n, m); }
        assert s[5] in " \t\n\r\U{0C}";
      }
    }
  }

  lemma SpacesFrom(s: string, n: nat)
    requires 5 + n <= |s|
    ensures PatternSpace(s[5..], 0, n) <==> PatternSpace(s, 5, n)
  {
    assert forall i :: 0 <= i < n ==> s[5..][i] == s[5 + i];
    assert forall i :: 5 <= i < 5 + n ==> s[i] == s[5..][i - 5];
  }

  lemma SpacesEnd(s: string, n: nat, m: nat)
    requires 5 + n <= |s| && PatternSpace(s, 5, n) && (5 + n < |s| ==> !IsPatternSpace(s[5 + n]))
    requires PatternSpace(s, 5, m) && ByWord(s, 5 + m)
    ensures m == n
  {
    if m < n { SpaceAt(s, n, m); }
    if n < m { SpaceAt(s, m, n); }
  }

  lemma SpaceAt(s: string, n: nat, m: nat)
    requires PatternSpace(s, 5, n) && m < n
    ensures 5 + m < |s| && IsPatternSpace(s[5 + m])
  {
    assert s[5 + m] in " \t\n\r\U{0C}";
  }

  /** An ORDER BY may start at i: outside quotes and parentheses, at a word start. */
  predicate OrderAt(s: string, i: nat) {
    && i < |s| && (s[i] == 'o' || s[i] == 'O')
    && Run(Open(0), s[..i]) == Open(0)
    && (i == 0 || !IsWordByte(s[i - 1]))
    && StartsOrderBy(s[i..])
  }

  /** The first such position from i on. */
  function FirstOrder(s: string, i: nat): (r: Option<nat>)
    requires i <= |s|
    ensures r.Some? ==> i <= r.value < |s| && OrderAt(s, r.value) && forall j :: i <= j < r.value ==> !OrderAt(s, j)
    ensures r.None? ==> forall j :: i <= j < |s| ==> !OrderAt(s, j)
    decreases |s| - i
  {
    if i == |s| then None else if OrderAt(s, i) then Some(i) else FirstOrder(s, i + 1)
  }

  datatype Split = Refused | Parts(filter: string, order: string)

  /** splitJQLOrderBy. `sortFields` stands for the pattern an ORDER BY clause must match. */
  function SplitOrderBy(jql: string, sortFields: string -> bool): Split {
    if Run(Open(0), jql) != Open(0) then Refused
    else
      var at := FirstOrder(jql, 0);
      if at.None? then Parts(TrimSpace(jql), "")
      else
        var order := TrimSpace(jql[at.value..]);
        if !sortFields(order) then Refused else Parts(TrimSpace(jql[..at.value]), order)
  }

  lemma RunSnoc(jql: string, i: nat)
    requires i < |jql|
    ensures Run(Open(0), jql[..i + 1]) == Step(Run(Open(0), jql[..i]), jql[i])
  {
    assert jql[..i + 1] == jql[..i] + [jql[i]];
    RunConcat(Open(0), jql[..i], [jql[i]]);
    RunOne(Run(Open(0), jql[..i]), jql[i]);
  }

  method SplitJqlOrderBy(jql: string, sortFields: string -> bool) returns (r: Split)
    ensures r == SplitOrderBy(jql, sortFields)
  {
    hide Run, StartsOrderBy, TrimSpace;
    var quote: Option<char> := None;
    var depth: nat := 0;
    var orderAt: Option<nat> := None;
    var i := 0;
    assert Run(Open(0), jql[..0]) == Open(0) by { RunEmpty(Open(0)); }
    while i < |jql|
      invariant 0 <= i <= |jql|
      invariant Run(Open(0), jql[..i]) == if quote.None? then Open(depth) else Quoted(quote.value, false, depth)
      invariant orderAt.Some? ==>
        orderAt.value < i && OrderAt(jql, orderAt.value) && forall j :: 0 <= j < orderAt.value ==> !OrderAt(jql, j)
      invariant orderAt.None? ==> forall j :: 0 <= j < i ==> !OrderAt(jql, j)
    {
      var c := jql[i];
      RunSnoc(jql, i);
      if quote.Some? {
        if c == '\\' {
          if i + 1 == |jql| {
            assert jql[..|jql|] == jql;
            return Refused;
          }
          RunSnoc(jql, i + 1);
          i := i + 1;
        } else if c == quote.value {
          quote := None;
        }
        i := i + 1;
        continue;
      }
      if c == '"' || c == '\'' {
        quote := Some(c);
      } else if c == '(' {
        depth := depth + 1;
      } else if c == ')' {
        if depth == 0 {
          assert jql == jql[..i + 1] + jql[i + 1..];
          RunConcat(Open(0), jql[..i + 1], jql[i + 1..]);
          RunBad(jql[i + 1..]);
          return Refused;
        }
        depth := depth - 1;
      } else if c == 'o' || c == 'O' {
        if depth == 0 && orderAt.None? && (i == 0 || !IsWordByte(jql[i - 1])) && StartsOrderBy(jql[i..]) {
          orderAt := Some(i);
        }
      }
      i := i + 1;
    }
    assert jql[..|jql|] == jql;
    if quote.Some? || depth != 0 { return Refused; }
    if orderAt.None? { return Parts(TrimSpace(jql), ""); }
    var order := TrimSpace(jql[orderAt.value..]);
    if !sortFields(order) { return Refused; }
    return Parts(TrimSpace(jql[..orderAt.value]), order);
  }

  lemma RunEmpty(st: Scan)
    ensures Run(st, "") == st
  {
  }

  // ----- the rewrite

  function JoinComma(keys: seq<string>): string {
    if keys == [] then "" else if |keys| == 1 then keys[0] else keys[0] + "," + JoinComma(keys[1..])
  }

  function ProjectClause(keys: seq<string>): string {
    "project in (" + JoinComma(keys) + ")"
  }

  function Wrapped(filter: string, keys: seq<string>): string {
    if filter == "" then ProjectClause(keys) else "(" + filter + ") AND " + ProjectClause(keys)
  }

  function Scoped(filter: string, order: string, keys: seq<string>): string {
    Wrapped(filter, keys) + if order == "" then "" else " " + order
  }

  datatype Checked = Denied | Unscoped | Rewritten(jql: string)

  /** JQLScopeConstraint.Check on the jql parameter (None: absent or not a string). */
  method Check(jql: Option<string>, keys: seq<string>, sortFields: string -> bool) returns (r: Checked)
    ensures jql.None? || TrimSpace(jql.value) == "" ==> r == Denied
    ensures jql.Some? && TrimSpace(jql.value) != "" && keys == [] ==> r == Unscoped
    ensures jql.Some? && TrimSpace(jql.value) != "" && keys != [] ==>
      r == match SplitOrderBy(jql.value, sortFields)
           case Refused => Denied
           case Parts(filter, order) => Rewritten(Scoped(filter, order, keys))
  {
    if jql.None? || TrimSpace(jql.value) == "" { return Denied; }
    if keys == [] { return Unscoped; }
    var split := SplitJqlOrderBy(jql.value, sortFields);
    if split.Refused? { return Denied; }
    r := Rewritten(Scoped(split.filter, split.order, keys));
  }
}
