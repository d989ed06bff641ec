/** The scoped query under an OR/AND/NOT precedence parser. */
module JqlMeaning {
  import opened Strings
  import opened JqlScope
  import opened JqlResplit

  // ----- tokens

  datatype Token = LParen | RParen | Word(text: string) | Other(text: string)

  function WordLength(s: string): (n: nat)
    ensures n <= |s| && (s != "" && IsWordByte(s[0]) ==> n > 0)
    ensures forall i :: 0 <= i < n ==> IsWordByte(s[i])
    ensures n < |s| ==> !IsWordByte(s[n])
  {
    if s == "" || !IsWordByte(s[0]) then 0 else 1 + WordLength(s[1..])
  }

  /** Length of a quoted literal's rest, up to and including the closing quote. */
  function QuoteLength(s: string, q: char, escaped: bool): (n: nat)
    ensures n <= |s|
    decreases |s|
  {
    if s == "" then 0
    else if escaped then 1 + QuoteLength(s[1..], q, false)
    else if s[0] == '\\' then 1 + QuoteLength(s[1..], q, true)
    else if s[0] == q then 1
    else 1 + QuoteLength(s[1..], q, false)
  }

  /** Length of the first lexeme. */
  function Chunk(s: string): (n: nat)
    requires s != ""
    ensures 0 < n <= |s|
  {
    if s[0] == '"' || s[0] == '\'' then 1 + QuoteLength(s[1..], s[0], false)
    else if IsWordByte(s[0]) then WordLength(s)
    else 1
  }

  function TokenOf(c: string): seq<Token>
    requires c != ""
  {
    if IsSpace(c[0]) then []
    else if c[0] == '(' then [LParen]
    else if c[0] == ')' then [RParen]
    else if IsWordByte(c[0]) then [Word(c)]
    else [Other(c)]
  }

  function Lex(s: string): seq<Token>
    decreases |s|
  {
    if s == "" then [] else TokenOf(s[..Chunk(s)]) + Lex(s[Chunk(s)..])
  }

  /** Nesting after the tokens, None when a parenthesis closes too much. */
  function Depth(ts: seq<Token>, d: nat): Option<nat> {
    if ts == [] then Some(d)
    else if ts[0].LParen? then Depth(ts[1..], d + 1)
    else if ts[0].RParen? then (if d == 0 then None else Depth(ts[1..], d - 1))
    else Depth(ts[1..], d)
  }

  // ----- parser

  datatype Expr = Clause(ts: seq<Token>) | Not(e: Expr) | And(l: Expr, r: Expr) | Or(l: Expr, r: Expr)

  datatype Parsed = Fail | Got(e: Expr, rest: seq<Token>)

  predicate IsKeyword(t: Token, k: string) {
    t.Word? && Lower(t.text) == k
  }

  predicate Starts(ts: seq<Token>, k: string) {
    ts != [] && IsKeyword(ts[0], k)
  }

  /** Tokens of a clause: up to AND, OR, a closing parenthesis or the end, not
      counting those in the clause's own parentheses. */
  function ClauseLength(ts: seq<Token>, nested: nat): (n: Option<nat>)
    ensures n.Some? ==> n.value <= |ts|
  {
    if ts == [] then (if nested == 0 then Some(0) else None)
    else if nested == 0 && (ts[0].RParen? || IsKeyword(ts[0], "and") || IsKeyword(ts[0], "or")) then Some(0)
    else
      var inner := if ts[0].LParen? then nested + 1 else if ts[0].RParen? then nested - 1 else nested;
      var n := ClauseLength(ts[1..], inner);
      if n.None? then None else Some(1 + n.value)
  }

  function ParseOr(ts: seq<Token>): (r: Parsed)
    ensures r.Got? ==> |r.rest| < |ts|
    decreases |ts|, 2
  {
    var l := ParseAnd(ts);
    if l.Fail? || !Starts(l.rest, "or") then l
    else
      var r := ParseOr(l.rest[1..]);
      if r.Fail? then Fail else Got(Or(l.e, r.e), r.rest)
  }

  function ParseAnd(ts: seq<Token>): (r: Parsed)
    ensures r.Got? ==> |r.rest| < |ts|
    decreases |ts|, 1
  {
    var l := ParseNot(ts);
    if l.Fail? || !Starts(l.rest, "and") then l
    else
      var r := ParseAnd(l.rest[1..]);
      if r.Fail? then Fail else Got(And(l.e, r.e), r.rest)
  }

  function ParseNot(ts: seq<Token>): (r: Parsed)
    ensures r.Got? ==> |r.rest| < |ts|
    decreases |ts|, 0
  {
    if ts == [] then Fail
    else if IsKeyword(ts[0], "not") then
      var r := ParseNot(ts[1..]);
      if r.Fail? then Fail else Got(Not(r.e), r.rest)
    else if ts[0].LParen? then
      var r := ParseOr(ts[1..]);
      if r.Fail? || r.rest == [] || !r.rest[0].RParen? then Fail else Got(r.e, r.rest[1..])
    else
      var n := ClauseLength(ts, 0);
      if n.None? || n.value == 0 then Fail else Got(Clause(ts[..n.value]), ts[n.value..])
  }

  function Parse(ts: seq<Token>): Option<Expr> {
    var r := ParseOr(ts);
    if r.Got? && r.rest == [] then Some(r.e) else None
  }

  // ----- a closing parenthesis ends a parse like the end of the input

  function AddTail(r: Parsed, tail: seq<Token>): Parsed {
    if r.Fail? then Fail else Got(r.e, r.rest + tail)
  }

  ghost predicate Closing(tail: seq<Token>) { tail != [] && tail[0].RParen? }

  /** The tokens close d parentheses, and no more, by their end. */
  ghost predicate Closes(ts: seq<Token>, d: nat) { Depth(ts, d) == Some(0) }

  lemma {:induction false} ClauseStops(ts: seq<Token>, nested: nat, d: nat, tail: seq<Token>)
    requires Closes(ts, d + nested) && Closing(tail)
    ensures ClauseLength(ts, nested).Some? && ClauseLength(ts + tail, nested) == ClauseLength(ts, nested)
    ensures Closes(ts[ClauseLength(ts, nested).value..], d)
    decreases |ts|
  {
    if ts == [] {
      assert ts + tail == tail;
    } else {
      assert (ts + tail)[0] == ts[0] && (ts + tail)[1..] == ts[1..] + tail;
      if !(nested == 0 && (ts[0].RParen? || IsKeyword(ts[0], "and") || IsKeyword(ts[0], "or"))) {
        var inner := if ts[0].LParen? then nested + 1 else if ts[0].RParen? then nested - 1 else nested;
        ClauseStops(ts[1..], inner, d, tail);
        var n := ClauseLength(ts[1..], inner).value;
        assert ts[1 + n..] == ts[1..][n..];
      }
    }
  }

  lemma StartsWithTail(rest: seq<Token>, tail: seq<Token>, k: string)
    requires Closing(tail)
    ensures Starts(rest + tail, k) <==> Starts(rest, k)
    ensures Starts(rest, k) ==> (rest + tail)[1..] == rest[1..] + tail
  {
  }

  lemma {:induction false} OrStops(ts: seq<Token>, d: nat, tail: seq<Token>)
    requires Closes(ts, d) && Closing(tail)
    ensures ParseOr(ts + tail) == AddTail(ParseOr(ts), tail)
    ensures ParseOr(ts).Got? ==> Closes(ParseOr(ts).rest, d)
    decreases |ts|, 2
  {
    AndStops(ts, d, tail);
    var l := ParseAnd(ts);
    if l.Got? {
      StartsWithTail(l.rest, tail, "or");
      if Starts(l.rest, "or") { OrStops(l.rest[1..], d, tail); }
    }
  }

  lemma {:induction false} AndStops(ts: seq<Token>, d: nat, tail: seq<Token>)
    requires Closes(ts, d) && Closing(tail)
    ensures ParseAnd(ts + tail) == AddTail(ParseAnd(ts), tail)
    ensures ParseAnd(ts).Got? ==> Closes(ParseAnd(ts).rest, d)
    decreases |ts|, 1
  {
    NotStops(ts, d, tail);
    var l := ParseNot(ts);
    if l.Got? {
      StartsWithTail(l.rest, tail, "and");
      if Starts(l.rest, "and") { AndStops(l.rest[1..], d, tail); }
    }
  }

  lemma {:induction false} NotStops(ts: seq<Token>, d: nat, tail: seq<Token>)
    requires Closes(ts, d) && Closing(tail)
    ensures ParseNot(ts + tail) == AddTail(ParseNot(ts), tail)
    ensures ParseNot(ts).Got? ==> Closes(ParseNot(ts).rest, d)
    decreases |ts|, 0
  {
    if ts == [] {
      assert ts + tail == tail;
    } else {
      assert (ts + tail)[0] == ts[0] && (ts + tail)[1..] == ts[1..] + tail;
      if IsKeyword(ts[0], "not") {
        NotStops(ts[1..], d, tail);
      } else if ts[0].LParen? {
        OrStops(ts[1..], d + 1, tail);
        var r := ParseOr(ts[1..]);
        if r.Got? { assert r.rest != [] && (r.rest + tail)[1..] == r.rest[1..] + tail; }
      } else {
        ClauseStops(ts, 0, d, tail);
        var n := ClauseLength(ts, 0).value;
        assert (ts + tail)[..n] == ts[..n] && (ts + tail)[n..] == ts[n..] + tail;
      }
    }
  }

  // ----- lexing and scanning agree

  lemma {:induction false} QuoteCloses(s: string, q: char, escaped: bool, d: nat, t: string)
    requires Run(Quoted(q, escaped, d), s).Open?
    ensures QuoteLength(s + t, q, escaped) == QuoteLength(s, q, escaped)
    ensures Run(Quoted(q, escaped, d), s) == Run(Open(d), s[QuoteLength(s, q, escaped)..])
    decreases |s|
  {
    assert s != "";
    assert (s + t)[0] == s[0] && (s + t)[1..] == s[1..] + t;
    var next := Step(Quoted(q, escaped, d), s[0]);
    if next.Quoted? {
      QuoteCloses(s[1..], q, next.escaped, d, t);
      var n := QuoteLength(s[1..], q, next.escaped);
      assert s[1..][n..] == s[1 + n..];
    }
  }

  lemma {:induction false} WordEnds(s: string, t: string)
    requires t != "" && !IsWordByte(t[0])
    ensures WordLength(s + t) == WordLength(s)
  {
    if s == "" {
      assert s + t == t;
    } else {
      assert (s + t)[0] == s[0] && (s + t)[1..] == s[1..] + t;
      WordEnds(s[1..], t);
    }
  }

  /** Depth after the first lexeme. */
  function DepthAfter(c: char, d: nat): nat {
    if c == '(' then d + 1 else if c == ')' && d > 0 then d - 1 else d
  }

  lemma RunWord(s: string, d: nat)
    ensures Run(Open(d), s) == Run(Open(d), s[WordLength(s)..])
  {
  }

  lemma ChunkScans(s: string, d: nat)
    requires s != "" && Run(Open(d), s).Open?
    ensures Run(Open(d), s) == Run(Open(DepthAfter(s[0], d)), s[Chunk(s)..])
    ensures s[0] == ')' ==> d > 0
  {
    if s[0] == ')' && d == 0 {
      RunBad(s[1..]);
    } else if s[0] == '"' || s[0] == '\'' {
      QuoteCloses(s[1..], s[0], false, d, "");
      assert s[1..][Chunk(s) - 1..] == s[Chunk(s)..];
    } else if IsWordByte(s[0]) {
      RunWord(s, d);
    }
  }

  lemma ChunkConcat(s: string, d: nat, t: string)
    requires s != "" && Run(Open(d), s).Open?
    requires t != "" && !IsWordByte(t[0])
    ensures Chunk(s + t) == Chunk(s)
  {
    if s[0] == '"' || s[0] == '\'' {
      QuoteCloses(s[1..], s[0], false, d, t);
      assert (s + t)[1..] == s[1..] + t;
    } else if IsWordByte(s[0]) {
      WordEnds(s, t);
    }
  }

  /** Text that ends outside quotes lexes independently of what follows. */
  lemma {:induction false} LexConcat(s: string, d: nat, t: string)
    requires Run(Open(d), s).Open?
    requires t != "" && !IsWordByte(t[0])
    ensures Lex(s + t) == Lex(s) + Lex(t)
    decreases |s|
  {
    hide Run, Chunk, TokenOf, IsWordByte;
    if s == "" {
      assert s + t == t;
    } else {
      var n := Chunk(s);
      ChunkScans(s, d);
      ChunkConcat(s, d, t);
      LexConcat(s[n..], DepthAfter(s[0], d), t);
      assert (s + t)[..n] == s[..n] && (s + t)[n..] == s[n..] + t;
    }
  }

  lemma TokenDepth(c: string, d: nat, rest: seq<Token>)
    requires c != "" && (c[0] == ')' ==> d > 0)
    ensures Depth(TokenOf(c) + rest, d) == Depth(rest, DepthAfter(c[0], d))
  {
    if TokenOf(c) == [] {
      assert TokenOf(c) + rest == rest;
    } else {
      assert (TokenOf(c) + rest)[1..] == rest;
    }
  }

  /** The scanner and the lexer count the same parentheses. */
  lemma {:induction false} LexDepth(s: string, d: nat)
    requires Run(Open(d), s).Open?
    ensures Depth(Lex(s), d) == Some(Run(Open(d), s).depth)
    decreases |s|
  {
    hide Run, Chunk, TokenOf;
    if s != "" {
      var n := Chunk(s);
      ChunkScans(s, d);
      LexDepth(s[n..], DepthAfter(s[0], d));
      TokenDepth(s[..n], d, Lex(s[n..]));
    } else {
      RunEmpty(Open(d));
    }
  }

  // ----- tokens of the project clause

  function KeyTokens(keys: seq<string>): seq<Token>
    requires keys != []
  {
    if |keys| == 1 then [Word(keys[0])] else [Word(keys[0]), Other(",")] + KeyTokens(keys[1..])
  }

  /** project in (KEY, KEY, ...) */
  function ProjectTokens(keys: seq<string>): seq<Token>
    requires keys != []
  {
    [Word("project"), Word("in"), LParen] + KeyTokens(keys) + [RParen]
  }

  lemma TokenOfWord(w: string)
    requires w != "" && IsWordByte(w[0])
    ensures TokenOf(w) == [Word(w)]
  {
  }

  lemma LexWord(w: string, t: string)
    requires w != "" && (forall i :: 0 <= i < |w| ==> IsWordByte(w[i]))
    requires t != "" && !IsWordByte(t[0])
    ensures Lex(w + t) == [Word(w)] + Lex(t)
  {
    hide QuoteLength, WordLength, TokenOf;
    WordEnds(w, t);
    assert Chunk(w + t) == |w|;
    assert (w + t)[..|w|] == w && (w + t)[|w|..] == t;
    TokenOfWord(w);
  }

  lemma LexChar(c: char, t: string)
    requires !IsWordByte(c) && c != '"' && c != '\''
    ensures Lex([c] + t) == TokenOf([c]) + Lex(t)
  {
  }

  lemma {:induction false} LexKeys(keys: seq<string>)
    requires PlainKeys(keys)
    ensures Lex(JoinComma(keys) + ")") == KeyTokens(keys) + [RParen]
  {
    hide Lex;
    LexEmpty();
    LexChar(')', "");
    assert ")" == [')'] + "";
    if |keys| == 1 {
      LexWord(keys[0], ")");
    } else {
      var rest := JoinComma(keys[1..]) + ")";
      LexKeys(keys[1..]);
      assert JoinComma(keys) + ")" == keys[0] + ("," + rest);
      LexWord(keys[0], "," + rest);
      LexChar(',', rest);
    }
  }

  lemma LexEmpty()
    ensures Lex("") == []
  {
  }

  lemma LexProject(keys: seq<string>)
    requires PlainKeys(keys)
    ensures Lex(ProjectClause(keys)) == ProjectTokens(keys)
  {
    hide Lex, JoinComma, KeyTokens, PlainKey;
    var tail := JoinComma(keys) + ")";
    assert ProjectClause(keys) == "project" + (" " + ("in" + (" " + ("(" + tail))));
    LexWord("project", " " + ("in" + (" " + ("(" + tail))));
    LexChar(' ', "in" + (" " + ("(" + tail)));
    LexWord("in", " " + ("(" + tail));
    LexChar(' ', "(" + tail);
    LexChar('(', tail);
    LexKeys(keys);
  }

  lemma LexLink(p: string)
    ensures Lex(WRAP_END + p) == [RParen, Word("AND")] + Lex(p)
  {
    hide Lex, IsWordByte;
    var t := "AND" + (" " + p);
    assert WRAP_END + p == ")" + (" " + t);
    WordBytes();
    LexChar(')', " " + t);
    LexChar(' ', t);
    LexWord("AND", " " + p);
    LexChar(' ', p);
  }

  lemma WordBytes()
    ensures IsWordByte('A') && IsWordByte('N') && IsWordByte('D')
    ensures !IsWordByte(' ') && !IsWordByte('(') && !IsWordByte(')')
  {
  }

  lemma LexWrapped(filter: string, keys: seq<string>)
    requires Run(Open(0), filter) == Open(0) && filter != "" && PlainKeys(keys)
    ensures Lex(Wrapped(filter, keys)) == [LParen] + (Lex(filter) + ([RParen, Word("AND")] + ProjectTokens(keys)))
  {
    hide Lex, Run, ProjectClause, ProjectTokens, PlainKeys, IsWordByte;
    var tail := WRAP_END + ProjectClause(keys);
    assert Wrapped(filter, keys) == "(" + (filter + tail);
    WordBytes();
    LexChar('(', filter + tail);
    LexConcat(filter, 0, tail);
    LexLink(ProjectClause(keys));
    LexProject(keys);
  }

  // ----- the scoped query's parse

  lemma {:induction false} KeysInClause(keys: seq<string>)
    requires keys != []
    ensures ClauseLength(KeyTokens(keys) + [RParen], 1) == Some(|KeyTokens(keys)| + 1)
  {
    var ts := KeyTokens(keys) + [RParen];
    assert ClauseLength([], 0) == Some(0);
    assert [RParen][1..] == [];
    assert ClauseLength([RParen], 1) == Some(1);
    if |keys| == 1 {
      assert ts[1..] == [RParen];
    } else {
      KeysInClause(keys[1..]);
      assert ts[1..] == [Other(",")] + (KeyTokens(keys[1..]) + [RParen]);
      assert ts[1..][1..] == KeyTokens(keys[1..]) + [RParen];
    }
  }

  lemma ProjectIsOneClause(keys: seq<string>)
    requires keys != []
    ensures ParseOr(ProjectTokens(keys)) == Got(Clause(ProjectTokens(keys)), [])
    ensures ParseAnd(ProjectTokens(keys)) == Got(Clause(ProjectTokens(keys)), [])
  {
    var p, k := ProjectTokens(keys), KeyTokens(keys) + [RParen];
    KeysInClause(keys);
    assert Lower("project") == "project" && Lower("in") == "in";
    assert ([LParen] + k)[1..] == k;
    assert ClauseLength([LParen] + k, 0) == Some(1 + |k|);
    assert ([Word("in"), LParen] + k)[1..] == [LParen] + k;
    assert ClauseLength([Word("in"), LParen] + k, 0) == Some(2 + |k|);
    assert p[1..] == [Word("in"), LParen] + k;
    assert ClauseLength(p, 0) == Some(|p|);
    assert p[..|p|] == p && p[|p|..] == [];
    assert Lower("project") != "not";
    assert ParseNot(p) == Got(Clause(p), []);
    assert ParseAnd(p) == Got(Clause(p), []);
  }

  lemma ClosedRest(rest: seq<Token>)
    requires Closes(rest, 0) && rest != []
    ensures !rest[0].RParen?
  {
  }

  /** A balanced group, AND, and a scope that parses as a whole. */
  lemma GroupParses(f: seq<Token>, p: seq<Token>, scope: Expr)
    requires Closes(f, 0) && ParseAnd(p) == Got(scope, [])
    ensures ParseOr([LParen] + (f + ([RParen, Word("AND")] + p))) ==
      if ParseOr(f).Got? && ParseOr(f).rest == [] then Got(And(ParseOr(f).e, scope), []) else Fail
  {
    hide Closes, ClauseLength;
    var tail := [RParen, Word("AND")] + p;
    var ts := [LParen] + (f + tail);
    OrStops(f, 0, tail);
    assert ts[1..] == f + tail;
    var r := ParseOr(f);
    if r.Got? && r.rest == [] {
      assert r.rest + tail == tail;
      assert tail[1..] == [Word("AND")] + p && tail[1..][1..] == p;
      assert Lower("AND") == "and";
      assert ParseNot(ts) == Got(r.e, tail[1..]);
    } else {
      if r.Got? { ClosedRest(r.rest); }
      assert ParseNot(ts) == Fail;
    }
  }

  /** The added parentheses close each other: a filter that parses becomes the
      left side of an AND with the project clause, one that does not parse never does. */
  lemma WrappedParses(filter: string, keys: seq<string>)
    requires Run(Open(0), filter) == Open(0) && PlainKeys(keys)
    ensures Parse(Lex(Wrapped(filter, keys))) ==
      var scope := Clause(ProjectTokens(keys));
      if filter == "" then Some(scope)
      else match Parse(Lex(filter)) case None => None case Some(e) => Some(And(e, scope))
  {
    hide Lex, Run, Depth, JoinComma, ProjectClause, ProjectTokens, PlainKey;
    var p := ProjectTokens(keys);
    ProjectIsOneClause(keys);
    if filter == "" {
      LexProject(keys);
    } else {
      LexWrapped(filter, keys);
      LexDepth(filter, 0);
      GroupParses(Lex(filter), p, Clause(p));
    }
  }

  function Holds(e: Expr, clause: seq<Token> -> bool): bool {
    match e
    case Clause(ts) => clause(ts)
    case Not(a) => !Holds(a, clause)
    case And(a, b) => Holds(a, clause) && Holds(b, clause)
    case Or(a, b) => Holds(a, clause) || Holds(b, clause)
  }

  /** Every accepted query, scoped: split again it has the same ORDER BY, and its
      filter means the original filter and "project in (keys)". */
  lemma ScopedMeans(jql: string, keys: seq<string>, sortFields: string -> bool, clause: seq<Token> -> bool)
    requires SplitOrderBy(jql, sortFields).Parts? && PlainKeys(keys)
    ensures var p := SplitOrderBy(jql, sortFields);
      var q := SplitOrderBy(Scoped(p.filter, p.order, keys), sortFields);
      && q.Parts? && q.order == p.order
      && (p.filter == "" ==> Parse(Lex(q.filter)) == Some(Clause(ProjectTokens(keys))))
      && (p.filter != "" ==> (Parse(Lex(q.filter)).Some? <==> Parse(Lex(p.filter)).Some?))
      && (p.filter != "" && Parse(Lex(p.filter)).Some? ==>
            (Holds(Parse(Lex(q.filter)).value, clause) <==>
             Holds(Parse(Lex(p.filter)).value, clause) && clause(ProjectTokens(keys))))
  {
    hide SplitOrderBy, Run, Lex, Parse, Wrapped, StartsOrderBy, Trimmed;
    var p := SplitOrderBy(jql, sortFields);
    SplitParts(jql, sortFields);
    ScopedSplitsBack(jql, keys, sortFields);
    WrappedParses(p.filter, keys);
  }
}
