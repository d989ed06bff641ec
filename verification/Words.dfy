/** The words of a line, by which lines are matched (cmd/egw-desktop/yamledit.go). */
module Words {
  import opened Strings
  import opened YamlPatch

  ghost predicate Blank(s: string) { forall i :: 0 <= i < |s| ==> IsSpace(s[i]) }

  ghost predicate IsWord(w: string) { w != "" && forall i :: 0 <= i < |w| ==> !IsSpace(w[i]) }

  /** The line is these words with white space before, between and after them. */
  ghost predicate Spaced(s: string, words: seq<string>)
    decreases |words|
  {
    if words == [] then Blank(s)
    else exists gap, rest :: Begins(s, gap, words[0], rest) && Spaced(rest, words[1..])
  }

  ghost predicate Begins(s: string, gap: string, word: string, rest: string) {
    s == gap + word + rest && Blank(gap) && IsWord(word) && (rest == "" || IsSpace(rest[0]))
  }

  lemma SpaceBefore(c: char, s: string, words: seq<string>)
    requires IsSpace(c) && Spaced(s, words)
    ensures Spaced([c] + s, words)
  {
    var t := [c] + s;
    if words == [] {
      assert forall i :: 1 <= i < |t| ==> t[i] == s[i - 1];
    } else {
      var gap, rest :| Begins(s, gap, words[0], rest) && Spaced(rest, words[1..]);
      assert t == [c] + gap + words[0] + rest;
      assert Begins(t, [c] + gap, words[0], rest);
    }
  }

  lemma WordBefore(word: string, rest: string, words: seq<string>)
    requires IsWord(word) && (rest == "" || IsSpace(rest[0])) && Spaced(rest, words)
    ensures Spaced(word + rest, [word] + words)
  {
    var all := [word] + words;
    assert word + rest == "" + word + rest && all[1..] == words;
    assert Begins(word + rest, "", all[0], rest);
  }

  lemma {:induction false} FieldsSpaced(s: string)
    ensures Spaced(s, Fields(s))
    decreases |s|
  {
    hide Spaced, IsWord;
    if s == "" {
      NoWords();
    } else if IsSpace(s[0]) {
      FieldsSpaced(s[1..]);
      SpaceBefore(s[0], s[1..], Fields(s[1..]));
      assert s == [s[0]] + s[1..];
    } else {
      var n := FieldLength(s);
      FieldIs(s);
      FieldsSpaced(s[n..]);
      WordBefore(s[..n], s[n..], Fields(s[n..]));
      assert s == s[..n] + s[n..];
    }
  }

  lemma NoWords()
    ensures Spaced("", [])
  {
  }

  lemma {:induction false} FieldIs(s: string)
    ensures var n := FieldLength(s); (n < |s| ==> IsSpace(s[n])) && (n > 0 ==> IsWord(s[..n]))
  {
    if s != "" && !IsSpace(s[0]) {
      FieldIs(s[1..]);
      var n := FieldLength(s);
      assert forall i :: 1 <= i < n ==> s[..n][i] == s[1..][..n - 1][i - 1];
    }
  }

  lemma {:induction false} FieldsOfBlank(s: string)
    requires Blank(s)
    ensures Fields(s) == []
  {
    if s != "" { FieldsOfBlank(s[1..]); }
  }

  lemma {:induction false} FieldLengthIs(w: string, rest: string)
    requires (forall i :: 0 <= i < |w| ==> !IsSpace(w[i])) && (rest == "" || IsSpace(rest[0]))
    ensures FieldLength(w + rest) == |w|
  {
    if w == "" {
      assert w + rest == rest;
    } else {
      assert (w + rest)[1..] == w[1..] + rest;
      FieldLengthIs(w[1..], rest);
    }
  }

  lemma {:induction false} FieldsBegin(gap: string, word: string, rest: string)
    requires Blank(gap) && IsWord(word) && (rest == "" || IsSpace(rest[0]))
    ensures Fields(gap + word + rest) == [word] + Fields(rest)
  {
    var s := gap + word + rest;
    if gap == "" {
      assert s == word + rest;
      FieldLengthIs(word, rest);
      assert s[..|word|] == word && s[|word|..] == rest;
    } else {
      assert s[1..] == gap[1..] + word + rest;
      FieldsBegin(gap[1..], word, rest);
    }
  }

  /** A line is spaced out of its fields, and of no other words. */
  lemma {:induction false} FieldsAreTheWords(s: string, words: seq<string>)
    ensures Spaced(s, words) <==> words == Fields(s)
    decreases |words|
  {
    FieldsSpaced(s);
    if Spaced(s, words) {
      if words == [] {
        FieldsOfBlank(s);
      } else {
        var gap, rest :| Begins(s, gap, words[0], rest) && Spaced(rest, words[1..]);
        FieldsAreTheWords(rest, words[1..]);
        FieldsBegin(gap, words[0], rest);
      }
    }
  }

  ghost predicate AllWords(words: seq<string>) { forall i :: 0 <= i < |words| ==> IsWord(words[i]) }

  lemma {:induction false} SpacedWords(s: string, words: seq<string>)
    requires Spaced(s, words)
    ensures AllWords(words)
    decreases |words|
  {
    if words != [] {
      var gap, rest :| Begins(s, gap, words[0], rest) && Spaced(rest, words[1..]);
      SpacedWords(rest, words[1..]);
    }
  }

  lemma {:induction false} JoinedFields(words: seq<string>)
    requires AllWords(words)
    ensures Fields(Join(words, " ")) == words
  {
    if |words| == 1 {
      FieldsBegin("", words[0], "");
      assert "" + words[0] + "" == words[0];
    } else if words != [] {
      var rest := Join(words[1..], " ");
      JoinedFields(words[1..]);
      FieldsBegin("", words[0], " " + rest);
      assert Join(words, " ") == "" + words[0] + (" " + rest);
      assert (" " + rest)[1..] == rest;
    }
  }

  /** Two lines have the same norm exactly when they have the same words. */
  lemma SameNormSameWords(s: string, t: string)
    ensures Norm(s) == Norm(t) <==> forall words :: Spaced(s, words) <==> Spaced(t, words)
  {
    hide Fields, Spaced, Join;
    FieldsSpaced(s);
    FieldsSpaced(t);
    SpacedWords(s, Fields(s));
    SpacedWords(t, Fields(t));
    JoinedFields(Fields(s));
    JoinedFields(Fields(t));
    forall words ensures (Spaced(s, words) <==> words == Fields(s)) && (Spaced(t, words) <==> words == Fields(t)) {
      FieldsAreTheWords(s, words);
      FieldsAreTheWords(t, words);
    }
    if forall words :: Spaced(s, words) <==> Spaced(t, words) { assert Spaced(t, Fields(s)); }
  }

  /** The characters of s that are not white space. */
  function Ink(s: string): string {
    if s == "" then "" else (if IsSpace(s[0]) then "" else [s[0]]) + Ink(s[1..])
  }

  lemma {:induction false} InkConcat(a: string, b: string)
    ensures Ink(a + b) == Ink(a) + Ink(b)
  {
    if a == "" {
      assert a + b == b;
    } else {
      assert (a + b)[1..] == a[1..] + b;
      InkConcat(a[1..], b);
    }
  }

  lemma {:induction false} InkOfWord(w: string)
    requires forall i :: 0 <= i < |w| ==> !IsSpace(w[i])
    ensures Ink(w) == w
  {
    if w != "" { InkOfWord(w[1..]); }
  }

  lemma {:induction false} InkOfBlank(s: string)
    requires Blank(s)
    ensures Ink(s) == ""
  {
    if s != "" { InkOfBlank(s[1..]); }
  }

  lemma {:induction false} InkOfSpaced(s: string, words: seq<string>)
    requires Spaced(s, words)
    ensures Ink(s) == Ink(Join(words, " "))
    decreases |words|
  {
    hide Ink, Join;
    if words == [] {
      InkOfBlank(s);
      InkOfJoined(words);
    } else {
      var gap, rest :| Begins(s, gap, words[0], rest) && Spaced(rest, words[1..]);
      InkOfSpaced(rest, words[1..]);
      InkOfBegun(gap, words[0], rest);
      InkOfJoined(words);
      assert s == gap + words[0] + rest;
    }
  }

  lemma InkOfBegun(gap: string, word: string, rest: string)
    requires Blank(gap)
    ensures Ink(gap + word + rest) == Ink(word) + Ink(rest)
  {
    hide Ink;
    InkConcat(gap + word, rest);
    InkConcat(gap, word);
    InkOfBlank(gap);
    assert "" + Ink(word) == Ink(word);
  }

  lemma InkOfJoined(words: seq<string>)
    ensures words == [] ==> Ink(Join(words, " ")) == ""
    ensures words != [] ==> Ink(Join(words, " ")) == Ink(words[0]) + Ink(Join(words[1..], " "))
  {
    hide Ink;
    InkOfBlank("");
    if |words| == 1 {
      assert words[1..] == [] && Ink(words[0]) + "" == Ink(words[0]);
    } else if |words| > 1 {
      var rest := Join(words[1..], " ");
      InkConcat(words[0] + " ", rest);
      InkConcat(words[0], " ");
      InkOfBlank(" ");
      assert Ink(words[0]) + "" == Ink(words[0]);
    }
  }

  /** The norm keeps every character that is not white space, in order. */
  lemma NormKeepsInk(s: string)
    ensures Ink(Norm(s)) == Ink(s)
  {
    FieldsSpaced(s);
    InkOfSpaced(s, Fields(s));
  }
}
