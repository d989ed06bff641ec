/** The few string operations the gateway takes from Go's standard library.
    A `char` stands for one byte; case folding and white space are ASCII. */
module Strings {

  datatype Option<+T> = None | Some(value: T)

  predicate HasPrefix(s: string, p: string) {
    |p| <= |s| && s[..|p|] == p
  }

  predicate HasSuffix(s: string, p: string) {
    |p| <= |s| && s[|s| - |p|..] == p
  }

  predicate ContainsAt(s: string, sub: string, i: nat) {
    i + |sub| <= |s| && s[i..i + |sub|] == sub
  }

  predicate Contains(s: string, sub: string) {
    exists i :: 0 <= i <= |s| && ContainsAt(s, sub, i)
  }

  predicate IsSpace(c: char) {
    c == ' ' || c == '\t' || c == '\n' || c == '\r' || c == '\U{0B}' || c == '\U{0C}'
  }

  function TrimLeft(s: string): string {
    if s != [] && IsSpace(s[0]) then TrimLeft(s[1..]) else s
  }

  function TrimRight(s: string): string {
    if s != [] && IsSpace(s[|s| - 1]) then TrimRight(s[..|s| - 1]) else s
  }

  function TrimSpace(s: string): string {
    TrimRight(TrimLeft(s))
  }

  function LowerChar(c: char): char {
    if 'A' <= c <= 'Z' then (c as int - 'A' as int + 'a' as int) as char else c
  }

  function Lower(s: string): (r: string)
    ensures |r| == |s|
    ensures forall i :: 0 <= i < |s| ==> r[i] == LowerChar(s[i])
  {
    seq(|s|, i requires 0 <= i < |s| => LowerChar(s[i]))
  }

  predicate Letter(c: char) { 'a' <= c <= 'z' || 'A' <= c <= 'Z' }

  /** Texts fold alike exactly when they differ in the case of letters only. */
  lemma FoldMeans(s: string, t: string)
    ensures Lower(s) == Lower(t) <==>
      && |s| == |t|
      && forall i :: 0 <= i < |s| ==>
        s[i] == t[i] || (Letter(s[i]) && Letter(t[i]) && (s[i] as int - t[i] as int) in {-32, 32})
  {
    if Lower(s) == Lower(t) {
      assert |s| == |Lower(s)| == |t|;
      assert forall i :: 0 <= i < |s| ==> LowerChar(s[i]) == Lower(s)[i] == LowerChar(t[i]);
    }
  }
}
