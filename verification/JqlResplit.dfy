/** Splitting a scoped query again gives back the wrapped filter and the same ORDER BY. */
module JqlResplit {
  import opened Strings
  import opened JqlScope

  // ----- trimming

  predicate AllSpace(s: string) {
    forall i :: 0 <= i < |s| ==> IsSpace(s[i])
  }

  predicate Trimmed(s: string) {
    s == "" || (!IsSpace(s[0]) && !IsSpace(s[|s| - 1]))
  }

  lemma {:induction false} TrimLeftParts(s: string) returns (l: string)
    ensures AllSpace(l) && s == l + TrimLeft(s) && (TrimLeft(s) == "" || !IsSpace(TrimLeft(s)[0]))
  {
    if s != "" && IsSpace(s[0]) {
      l := TrimLeftParts(s[1..]);
      l := [s[0]] + l;
    } else {
      l := "";
    }
  }

  lemma {:induction false} TrimRightParts(s: string) returns (r: string)
    ensures AllSpace(r) && s == TrimRight(s) + r && (TrimRight(s) == "" || !IsSpace(TrimRight(s)[|TrimRight(s)| - 1]))
  {
    if s != "" && IsSpace(s[|s| - 1]) {
      r := TrimRightParts(s[..|s| - 1]);
      r := r + [s[|s| - 1]];
    } else {
      r := "";
    }
  }

  lemma TrimParts(s: string) returns (l: string, r: string)
    ensures AllSpace(l) && AllSpace(r) && s == l + TrimSpace(s) + r && Trimmed(TrimSpace(s))
  {
    hide TrimLeft, TrimRight;
    l := TrimLeftParts(s);
    r := TrimRightParts(TrimLeft(s));
    var t := TrimSpace(s);
    if t != "" { assert TrimLeft(s)[0] == t[0]; }
  }

  lemma {:induction false} TrimRightSpaces(t: string, r: string)
    requires AllSpace(r) && (t == "" || !IsSpace(t[|t| - 1]))
    ensures TrimRight(t + r) == t
    decreases |r|
  {
    if r == "" {
      assert t + r == t;
    } else {
      assert (t + r)[..|t + r| - 1] == t + r[..|r| - 1];
      TrimRightSpaces(t, r[..|r| - 1]);
    }
  }

  lemma TrimOfTrimmed(t: string, r: string)
    requires Trimmed(t) && AllSpace(r)
    ensures t != "" ==> TrimSpace(t + r) == t
    ensures TrimSpace(t) == t
  {
    TrimRightSpaces(t, r);
    TrimRightSpaces(t, "");
    assert t + "" == t;
  }

  // ----- scanning

  predicate ProperQuote(st: Scan) {
    st.Quoted? ==> st.quote == '"' || st.quote == '\''
  }

  lemma {:induction false} RunKeepsProper(st: Scan, s: string)
    requires ProperQuote(st)
    ensures ProperQuote(Run(st, s))
    decreases |s|
  {
    if s != "" { RunKeepsProper(Step(st, s[0]), s[1..]); }
  }

  lemma {:induction false} RunSpaces(st: Scan, s: string)
    requires AllSpace(s) && ProperQuote(st)
    ensures st.Open? ==> Run(st, s) == st
    ensures Run(st, s).Open? ==> st == Run(st, s)
    decreases |s|
  {
    if s != "" { RunSpaces(Step(st, s[0]), s[1..]); }
  }

  lemma RunTrimmed(s: string)
    requires Run(Open(0), s) == Open(0)
    ensures Run(Open(0), TrimSpace(s)) == Open(0)
  {
    var l, r := TrimParts(s);
    hide *;
    var t := TrimSpace(s);
    RunConcat(Open(0), l + t, r);
    RunConcat(Open(0), l, t);
    RunSpaces(Open(0), l);
    assert ProperQuote(Run(Open(0), t)) by { ProperOpen(0); RunKeepsProper(Open(0), t); }
    ProperOpen(0);
    RunSpaces(Run(Open(0), t), r);
  }

  lemma ProperOpen(d: nat)
    ensures ProperQuote(Open(d))
  {
  }

  function Up(st: Scan): Scan {
    match st
    case Bad => Bad
    case Open(d) => Open(d + 1)
    case Quoted(q, e, d) => Quoted(q, e, d + 1)
  }

  lemma {:induction false} RunUp(st: Scan, s: string)
    requires Run(st, s) != Bad
    ensures Run(Up(st), s) == Up(Run(st, s))
    decreases |s|
  {
    if s != "" {
      if Step(st, s[0]) == Bad { RunBad(s[1..]); }
      RunUp(Step(st, s[0]), s[1..]);
    }
  }

  /** Inside the added parenthesis the filter never returns to the outside. */
  lemma NeverOutside(filter: string, n: nat)
    requires Run(Open(0), filter) == Open(0) && n <= |filter|
    ensures Run(Open(0), "(" + filter[..n]) != Open(0)
    ensures Run(Open(0), "(" + filter) == Open(1)
  {
    assert filter == filter[..n] + filter[n..];
    RunConcat(Open(0), filter[..n], filter[n..]);
    if Run(Open(0), filter[..n]) == Bad { RunBad(filter[n..]); }
    RunUp(Open(0), filter[..n]);
    RunUp(Open(0), filter);
    RunOpening(filter[..n]);
    RunOpening(filter);
  }

  lemma RunOpening(s: string)
    ensures Run(Open(0), "(" + s) == Run(Open(1), s)
  {
  }

  predicate PlainText(s: string) {
    forall i :: 0 <= i < |s| ==> s[i] != '"' && s[i] != '\'' && s[i] != '(' && s[i] != ')'
  }

  lemma {:induction false} RunPlain(d: nat, s: string)
    requires PlainText(s)
    ensures Run(Open(d), s) == Open(d)
    decreases |s|
  {
    if s != "" { RunPlain(d, s[1..]); }
  }

  // ----- project keys

  predicate PlainKey(k: string) {
    k != "" && forall i :: 0 <= i < |k| ==> IsWordByte(k[i])
  }

  predicate PlainKeys(keys: seq<string>) {
    keys != [] && forall i :: 0 <= i < |keys| ==> PlainKey(keys[i])
  }

  lemma {:induction false} JoinedKeysPlain(keys: seq<string>)
    requires PlainKeys(keys)
    ensures PlainText(JoinComma(keys)) && forall i :: 0 <= i < |JoinComma(keys)| ==>
      IsWordByte(JoinComma(keys)[i]) || JoinComma(keys)[i] == ','
  {
    if |keys| > 1 { JoinedKeysPlain(keys[1..]); }
  }

  // ----- no ORDER BY starts inside the wrapper

  predicate IsO(c: char) { c == 'o' || c == 'O' }

  /** An o at i of w that could start an ORDER BY, whatever follows w. */
  ghost predicate MayOrder(w: string, i: nat) {
    i < |w| && IsO(w[i]) && Run(Open(0), w[..i]) == Open(0) && (i == 0 || !IsWordByte(w[i - 1]))
  }

  ghost predicate Silent(w: string) {
    forall i :: 0 <= i < |w| ==> !MayOrder(w, i)
  }

  lemma SilentMeans(w: string, t: string, i: nat)
    requires Silent(w) && i < |w|
    ensures !OrderAt(w + t, i)
  {
    assert !MayOrder(w, i);
    assert (w + t)[..i] == w[..i] && (w + t)[i] == w[i];
    if i > 0 { assert (w + t)[i - 1] == w[i - 1]; }
  }

  lemma OrderInPrefix(a: string, b: string, i: nat)
    requires i < |a|
    ensures MayOrder(a + b, i) <==> MayOrder(a, i)
  {
    assert (a + b)[..i] == a[..i];
  }

  /** Appending text whose o's are all inside words. */
  lemma SilentWords(a: string, b: string)
    requires Silent(a) && forall i :: 0 <= i < |b| && IsO(b[i]) ==> i > 0 && IsWordByte(b[i - 1])
    ensures Silent(a + b)
  {
    forall i | 0 <= i < |a + b| ensures !MayOrder(a + b, i) {
      if i < |a| {
        OrderInPrefix(a, b, i);
      } else if IsO(b[i - |a|]) {
        assert (a + b)[i - 1] == b[i - |a| - 1];
      }
    }
  }

  /** Appending text without quotes or parentheses inside a parenthesis. */
  lemma SilentInside(a: string, b: string)
    requires Silent(a) && Run(Open(0), a) == Open(1) && PlainText(b)
    ensures Silent(a + b)
  {
    forall i | 0 <= i < |a + b| ensures !MayOrder(a + b, i) {
      if i < |a| {
        OrderInPrefix(a, b, i);
      } else {
        var n := i - |a|;
        assert (a + b)[..i] == a + b[..n];
        RunConcat(Open(0), a, b[..n]);
        RunPlain(1, b[..n]);
      }
    }
  }

  lemma SilentFilter(filter: string)
    requires Run(Open(0), filter) == Open(0)
    ensures Silent("(" + filter)
  {
    var w := "(" + filter;
    forall i | 0 <= i < |w| ensures !MayOrder(w, i) {
      if i > 0 {
        assert w[..i] == "(" + filter[..i - 1];
        NeverOutside(filter, i - 1);
      }
    }
  }

  const CLAUSE_HEAD := "project in ("
  const WRAP_END := ") AND "

  lemma HeadIsQuiet()
    ensures forall i :: 0 <= i < |CLAUSE_HEAD| && IsO(CLAUSE_HEAD[i]) ==> i > 0 && IsWordByte(CLAUSE_HEAD[i - 1])
    ensures forall i :: 0 <= i < |WRAP_END| ==> !IsO(WRAP_END[i])
  {
  }

  lemma RunHead()
    ensures Run(Open(0), CLAUSE_HEAD) == Open(1)
    ensures Run(Open(1), WRAP_END) == Open(0)
  {
    hide Run;
    assert CLAUSE_HEAD == "project in " + "(";
    RunConcat(Open(0), "project in ", "(");
    RunPlain(0, "project in ");
    RunOne(Open(0), '(');
    assert WRAP_END == ")" + " AND ";
    RunConcat(Open(1), ")", " AND ");
    RunOne(Open(1), ')');
    RunPlain(0, " AND ");
  }

  /** Before the project clause: nothing, or the filter in parentheses. */
  function Lead(filter: string): string {
    if filter == "" then "" else "(" + filter + WRAP_END
  }

  lemma LeadFacts(filter: string)
    requires Run(Open(0), filter) == Open(0)
    ensures Silent(Lead(filter)) && Run(Open(0), Lead(filter)) == Open(0)
  {
    if filter != "" {
      SilentFilter(filter);
      HeadIsQuiet();
      SilentWords("(" + filter, WRAP_END);
      NeverOutside(filter, |filter|);
      RunConcat(Open(0), "(" + filter, WRAP_END);
      RunHead();
    }
  }

  lemma WrappedIs(filter: string, keys: seq<string>)
    ensures Wrapped(filter, keys) == Lead(filter) + CLAUSE_HEAD + JoinComma(keys) + ")"
  {
  }

  lemma WrappedFacts(filter: string, keys: seq<string>)
    requires Run(Open(0), filter) == Open(0) && PlainKeys(keys)
    ensures Silent(Wrapped(filter, keys)) && Run(Open(0), Wrapped(filter, keys)) == Open(0)
  {
    hide Run, Silent, Lead, Wrapped, JoinComma, ProjectClause, PlainText;
    var a, joined := Lead(filter), JoinComma(keys);
    LeadFacts(filter);
    HeadIsQuiet();
    RunHead();
    JoinedKeysPlain(keys);
    SilentWords(a, CLAUSE_HEAD);
    RunConcat(Open(0), a, CLAUSE_HEAD);
    SilentInside(a + CLAUSE_HEAD, joined);
    RunConcat(Open(0), a + CLAUSE_HEAD, joined);
    RunPlain(1, joined);
    SilentWords(a + CLAUSE_HEAD + joined, ")");
    RunConcat(Open(0), a + CLAUSE_HEAD + joined, ")");
    RunOne(Open(1), ')');
    WrappedIs(filter, keys);
  }

  // ----- the ORDER BY clause itself

  lemma {:induction false} SkipSpacesParts(s: string) returns (p: nat)
    ensures p <= |s| && SkipSpaces(s) == s[p..] && (p == |s| || !IsPatternSpace(s[p]))
    ensures forall i :: 0 <= i < p ==> IsPatternSpace(s[i])
  {
    if s != "" && IsPatternSpace(s[0]) {
      p := SkipSpacesParts(s[1..]);
      p := p + 1;
    } else {
      p := 0;
    }
  }

  lemma {:induction false} SkipSpacesTo(s: string, p: nat)
    requires p < |s| && !IsPatternSpace(s[p]) && forall i :: 0 <= i < p ==> IsPatternSpace(s[i])
    ensures SkipSpaces(s) == s[p..]
  {
    if p > 0 {
      SkipSpacesTo(s[1..], p - 1);
      assert s[1..][p - 1..] == s[p..];
    }
  }

  /** Dropping trailing white space keeps "order by" recognisable. */
  lemma OrderByTrimmed(t: string, r: string)
    requires StartsOrderBy(t + r) && AllSpace(r) && Trimmed(t) && t != ""
    ensures StartsOrderBy(t)
  {
    var s := t + r;
    var p := SkipSpacesParts(s[5..]);
    var y := 5 + p + 1;
    var b := s[5..][p..];
    assert Lower(b[..2])[1] == LowerChar(b[1]) == 'y' && b[1] == s[y];
    assert Lower(b[..2])[0] == LowerChar(b[0]) == 'b' && b[0] == s[y - 1];
    assert !IsSpace(s[y]) && !IsSpace(s[y - 1]);
    assert forall i :: |t| <= i < |s| ==> IsSpace(s[i]);
    assert t[..5] == s[..5] && t[5] == s[5];
    forall i | 0 <= i < p ensures IsPatternSpace(t[5..][i]) { assert t[5..][i] == s[5..][i]; }
    assert t[5..][p] == s[y - 1];
    SkipSpacesTo(t[5..], p);
    assert t[5..][p..][..2] == b[..2];
    if |t| > y + 1 { assert t[5..][p..][2] == b[2]; }
  }

  /** What an accepted query splits into. */
  lemma SplitParts(jql: string, sortFields: string -> bool)
    requires SplitOrderBy(jql, sortFields).Parts?
    ensures var p := SplitOrderBy(jql, sortFields);
      && Run(Open(0), p.filter) == Open(0) && Trimmed(p.filter)
      && Run(Open(0), p.order) == Open(0) && Trimmed(p.order)
      && (p.order != "" ==> StartsOrderBy(p.order) && sortFields(p.order))
  {
    hide Run, StartsOrderBy, TrimSpace;
    var at := FirstOrder(jql, 0);
    if at.None? {
      RunTrimmed(jql);
      var l, r := TrimParts(jql);
      RunEmpty(Open(0));
    } else {
      var head, tail := jql[..at.value], jql[at.value..];
      RunTrimmed(head);
      var l, r := TrimParts(head);
      assert jql == head + tail;
      RunConcat(Open(0), head, tail);
      RunTrimmed(tail);
      OrderOfTail(tail);
    }
  }

  lemma NoLeadingSpace(l: string, t: string, s: string)
    requires AllSpace(l) && s == l + t && s != "" && !IsSpace(s[0])
    ensures l == "" && s == t
  {
  }

  lemma OrderOfTail(tail: string)
    requires StartsOrderBy(tail)
    ensures StartsOrderBy(TrimSpace(tail)) && Trimmed(TrimSpace(tail))
  {
    hide TrimSpace, SkipSpaces;
    var l, r := TrimParts(tail);
    assert Lower(tail[..5])[0] == LowerChar(tail[0]) == 'o';
    NoLeadingSpace(l, TrimSpace(tail) + r, tail);
    assert TrimSpace(tail) == "" ==> tail == r;
    OrderByTrimmed(TrimSpace(tail), r);
  }

  lemma WrappedEnds(filter: string, keys: seq<string>)
    ensures Trimmed(Wrapped(filter, keys)) && Wrapped(filter, keys) != ""
  {
  }

  lemma SplitAtOrder(w: string, order: string, sortFields: string -> bool)
    requires Silent(w) && Run(Open(0), w) == Open(0) && Trimmed(w) && w != ""
    requires order != "" && Run(Open(0), order) == Open(0) && Trimmed(order) && StartsOrderBy(order) &&
      sortFields(order)
    ensures SplitOrderBy(w + " " + order, sortFields) == Parts(w, order)
  {
    hide Run, StartsOrderBy, TrimSpace, Silent;
    var s, at := w + " " + order, |w| + 1;
    assert s == w + (" " + order) && s == (w + " ") + order;
    RunConcat(Open(0), w, " ");
    RunSpaces(Open(0), " ");
    RunConcat(Open(0), w + " ", order);
    assert s[..at] == w + " " && s[at..] == order;
    assert OrderAt(s, at) by { FirstIsO(order); assert s[at] == order[0] && s[at - 1] == ' '; }
    forall i | 0 <= i < at ensures !OrderAt(s, i) {
      if i < |w| { SilentMeans(w, " " + order, i); } else { assert s[i] == ' '; }
    }
    assert FirstOrder(s, 0) == Some(at);
    TrimOfTrimmed(w, " ");
    TrimOfTrimmed(order, "");
  }

  lemma FirstIsO(s: string)
    requires StartsOrderBy(s)
    ensures s != "" && IsO(s[0])
  {
  }

  lemma SplitWithoutOrder(w: string, sortFields: string -> bool)
    requires Silent(w) && Run(Open(0), w) == Open(0) && Trimmed(w)
    ensures SplitOrderBy(w, sortFields) == Parts(w, "")
  {
    hide Run, StartsOrderBy, TrimSpace, Silent;
    forall i | 0 <= i < |w| ensures !OrderAt(w, i) {
      SilentMeans(w, "", i);
      assert w + "" == w;
    }
    assert FirstOrder(w, 0).None?;
    TrimOfTrimmed(w, "");
  }

  /** For every accepted query and every list of plain project keys, the scoped
      query splits again into the wrapped filter and the same ORDER BY. */
  lemma ScopedSplitsBack(jql: string, keys: seq<string>, sortFields: string -> bool)
    requires SplitOrderBy(jql, sortFields).Parts? && PlainKeys(keys)
    ensures var p := SplitOrderBy(jql, sortFields);
      SplitOrderBy(Scoped(p.filter, p.order, keys), sortFields) == Parts(Wrapped(p.filter, keys), p.order)
  {
    hide SplitOrderBy, Run, StartsOrderBy, Silent, Wrapped;
    var p := SplitOrderBy(jql, sortFields);
    SplitParts(jql, sortFields);
    WrappedFacts(p.filter, keys);
    WrappedEnds(p.filter, keys);
    if p.order == "" {
      SplitWithoutOrder(Wrapped(p.filter, keys), sortFields);
      assert Scoped(p.filter, p.order, keys) == Wrapped(p.filter, keys);
    } else {
      SplitAtOrder(Wrapped(p.filter, keys), p.order, sortFields);
      assert Scoped(p.filter, p.order, keys) == Wrapped(p.filter, keys) + " " + p.order;
    }
  }

  /** Splitting a query loses no text but white space: what stands before its first ORDER BY
      and what begins there. A balanced query is refused only for what its ORDER BY sorts by. */
  lemma SplitKeepsText(jql: string, sortFields: string -> bool) returns (a: string, b: string, c: string)
    ensures var r := SplitOrderBy(jql, sortFields);
      && AllSpace(a) && AllSpace(b) && AllSpace(c)
      && (r.Refused? <==>
            || Run(Open(0), jql) != Open(0)
            || exists i: nat :: FirstAt(jql, i) && !sortFields(TrimSpace(jql[i..])))
      && (r.Parts? ==>
            && jql == a + r.filter + b + r.order + c && Trimmed(r.filter) && Trimmed(r.order)
            && (r.order == "" ==> forall i :: !OrderAt(jql, i))
            && (r.order != "" ==> sortFields(r.order) && FirstAt(jql, |a + r.filter + b|)))
  {
    hide Run, StartsOrderBy, TrimSpace;
    a, b, c := "", "", "";
    var at := FirstOrder(jql, 0);
    if Run(Open(0), jql) == Open(0) {
      if at.None? {
        a, b := TrimParts(jql);
        assert a + TrimSpace(jql) + b + "" + c == jql;
      } else {
        a, b := TrimParts(jql[..at.value]);
        var d;
        d, c := TrimParts(jql[at.value..]);
        OrderBySplit(jql, at.value, d, c);
        assert jql == jql[..at.value] + jql[at.value..];
        assert FirstAt(jql, at.value);
        forall i: nat | FirstAt(jql, i) ensures i == at.value { FirstIsOne(jql, i, at.value); }
      }
    }
  }

  /** An ORDER BY may start at i, and none before. */
  ghost predicate FirstAt(jql: string, i: nat) {
    OrderAt(jql, i) && forall j: nat :: j < i ==> !OrderAt(jql, j)
  }

  lemma FirstIsOne(jql: string, i: nat, j: nat)
    requires FirstAt(jql, i) && FirstAt(jql, j)
    ensures i == j
  {
    hide OrderAt;
  }

  lemma OrderBySplit(jql: string, i: nat, d: string, c: string)
    requires i < |jql| && OrderAt(jql, i) && AllSpace(d) && AllSpace(c) && jql[i..] == d + TrimSpace(jql[i..]) + c
    ensures d == "" && TrimSpace(jql[i..]) != ""
  {
    hide Run, StartsOrderBy, TrimSpace;
  }
}
