/** (*yamlFile).patched of cmd/egw-desktop/yamledit.go: the change between two
    renderings of a document, applied onto the lines of the original text. */
module YamlPatch {
  import opened Strings
  import opened LineDiff

  // ----- lines up to white space

  function FieldLength(s: string): (n: nat)
    ensures n <= |s|
    ensures s != "" && !IsSpace(s[0]) ==> n > 0
  {
    if s == "" || IsSpace(s[0]) then 0 else 1 + FieldLength(s[1..])
  }

  function Fields(s: string): seq<string>
    decreases |s|
  {
    if s == "" then []
    else if IsSpace(s[0]) then Fields(s[1..])
    else [s[..FieldLength(s)]] + Fields(s[FieldLength(s)..])
  }

  function Join(parts: seq<string>, sep: string): string {
    if parts == [] then "" else if |parts| == 1 then parts[0] else parts[0] + sep + Join(parts[1..], sep)
  }

  function Norm(s: string): string {
    Join(Fields(s), " ")
  }

  lemma {:induction false} FieldsIgnoreLineEnd(s: string, end: string)
    requires end == "" || end == "\r"
    ensures Fields(s + end) == Fields(s)
    decreases |s|
  {
    if s == "" {
      assert s + end == end;
      if end == "\r" { assert Fields(end) == Fields(end[1..]) && end[1..] == ""; }
    } else if IsSpace(s[0]) {
      assert (s + end)[1..] == s[1..] + end;
      FieldsIgnoreLineEnd(s[1..], end);
    } else {
      var n := FieldLength(s);
      FieldIgnoresLineEnd(s, end);
      assert (s + end)[..n] == s[..n] && (s + end)[n..] == s[n..] + end;
      FieldsIgnoreLineEnd(s[n..], end);
    }
  }

  lemma {:induction false} FieldIgnoresLineEnd(s: string, end: string)
    requires end == "" || end == "\r"
    ensures FieldLength(s + end) == FieldLength(s)
  {
    if s != "" && !IsSpace(s[0]) {
      assert (s + end)[1..] == s[1..] + end;
      FieldIgnoresLineEnd(s[1..], end);
    } else if s == "" {
      assert s + end == end;
    }
  }

  lemma NormIgnoresLineEnd(s: string, end: string)
    requires end == "" || end == "\r"
    ensures Norm(s + end) == Norm(s)
  {
    FieldsIgnoreLineEnd(s, end);
  }

  // ----- anchoring the first rendering in the original

  /** Indices of the non-blank lines from k on. */
  function NonBlank(orig: seq<string>, k: nat): seq<nat>
    requires k <= |orig|
    decreases |orig| - k
  {
    if k == |orig| then []
    else (if TrimSpace(orig[k]) != "" then [k] else []) + NonBlank(orig, k + 1)
  }

  /** Strictly ascending positions from `low` up to `high`. */
  ghost predicate Positions(idx: seq<nat>, low: nat, high: nat) {
    && (forall x :: 0 <= x < |idx| ==> low <= idx[x] < high)
    && (forall x, y :: 0 <= x < y < |idx| ==> idx[x] < idx[y])
  }

  lemma {:induction false} NonBlankAscending(orig: seq<string>, k: nat)
    requires k <= |orig|
    ensures Positions(NonBlank(orig, k), k, |orig|)
    decreases |orig| - k
  {
    hide NonBlank;
    NonBlankStep(orig, k);
    if k < |orig| { NonBlankAscending(orig, k + 1); }
  }

  lemma NonBlankStep(orig: seq<string>, k: nat)
    requires k <= |orig|
    ensures k == |orig| ==> NonBlank(orig, k) == []
    ensures k < |orig| ==>
      NonBlank(orig, k) == (if TrimSpace(orig[k]) != "" then [k] else []) + NonBlank(orig, k + 1)
  {
  }

  function Keys(lines: seq<string>): (keys: seq<string>)
    ensures |keys| == |lines|
  {
    seq(|lines|, i requires 0 <= i < |lines| => Norm(lines[i]))
  }

  function Select(lines: seq<string>, idx: seq<nat>): (r: seq<string>)
    requires forall x :: 0 <= x < |idx| ==> idx[x] < |lines|
    ensures |r| == |idx|
  {
    seq(|idx|, x requires 0 <= x < |idx| => lines[idx[x]])
  }

  /** Which line of the right-hand side each kept line of the left one meets. */
  function Meets(ops: seq<Op>): map<nat, nat> {
    if ops == [] then map[]
    else (if ops[0].Keep? then map[ops[0].i := ops[0].j] else map[]) + Meets(ops[1..])
  }

  /** An order-preserving matching of equal lines, from position (i, j) on. */
  ghost predicate Ascends<T>(m: map<nat, nat>, a: seq<T>, b: seq<T>, i: nat, j: nat) {
    && (forall x :: x in m ==> i <= x < |a| && j <= m[x] < |b| && a[x] == b[m[x]])
    && (forall x, y :: x in m && y in m && x < y ==> m[x] < m[y])
  }

  lemma AscendsCons<T>(rest: map<nat, nat>, a: seq<T>, b: seq<T>, i: nat, j: nat)
    requires i < |a| && j < |b| && a[i] == b[j] && Ascends(rest, a, b, i + 1, j + 1)
    ensures Ascends(map[i := j] + rest, a, b, i, j)
  {
  }

  lemma {:induction false} MeetsAscend<T>(a: seq<T>, b: seq<T>, i: nat, j: nat)
    requires i <= |a| && j <= |b|
    ensures Ascends(Meets(Script(a, b, i, j)), a, b, i, j)
    decreases |a| - i + |b| - j
  {
    hide Lcs, Script, Meets, Ascends;
    ScriptStep(a, b, i, j);
    var ops := Script(a, b, i, j);
    if ops == [] {
      MeetsEmpty();
      AscendsEmpty(a, b, i, j);
    } else {
      MeetsStep(ops, map[]);
      assert map[] + Meets(ops) == Meets(ops);
      if ops[0].Keep? {
        assert ops[1..] == Script(a, b, i + 1, j + 1);
        MeetsAscend(a, b, i + 1, j + 1);
        AscendsCons(Meets(ops[1..]), a, b, i, j);
      } else {
        var i', j' := if ops[0].Add? then i else i + 1, if ops[0].Drop? then j else j + 1;
        assert ops[1..] == Script(a, b, i', j') && map[] + Meets(ops[1..]) == Meets(ops[1..]);
        MeetsAscend(a, b, i', j');
        AscendsWider(Meets(ops[1..]), a, b, i', j', i, j);
      }
    }
  }

  lemma AscendsEmpty<T>(a: seq<T>, b: seq<T>, i: nat, j: nat)
    ensures Ascends(map[], a, b, i, j)
  {
  }

  lemma AscendsWider<T>(m: map<nat, nat>, a: seq<T>, b: seq<T>, i': nat, j': nat, i: nat, j: nat)
    requires Ascends(m, a, b, i', j') && i <= i' && j <= j'
    ensures Ascends(m, a, b, i, j)
  {
  }

  /** A matching with key positions, as one with original lines. */
  function Through(met: map<nat, nat>, idx: seq<nat>): map<nat, nat> {
    map x | x in met && met[x] < |idx| :: idx[met[x]]
  }

  /** aToOrig: rendered line -> original line it was matched to. */
  function Anchors(a: seq<string>, orig: seq<string>): map<nat, nat> {
    var idx := NonBlank(orig, 0);
    NonBlankAscending(orig, 0);
    Through(Meets(Script(Keys(a), Keys(Select(orig, idx)), 0, 0)), idx)
  }

  /** An order-preserving matching of rendered lines with original lines that
      differ at most in white space. */
  ghost predicate Anchoring(anchors: map<nat, nat>, a: seq<string>, orig: seq<string>) {
    && (forall x :: x in anchors ==> x < |a| && anchors[x] < |orig| && Norm(a[x]) == Norm(orig[anchors[x]]))
    && (forall x, y :: x in anchors && y in anchors && x < y ==> anchors[x] < anchors[y])
  }

  lemma AnchorsAnchor(a: seq<string>, orig: seq<string>)
    ensures Anchoring(Anchors(a, orig), a, orig)
  {
    hide Norm, Script, Meets, NonBlank;
    NonBlankAscending(orig, 0);
    MeetsAscend(Keys(a), Keys(Select(orig, NonBlank(orig, 0))), 0, 0);
  }

  /** All elements of a, in order, among those of b. */
  ghost predicate Subsequence<T>(a: seq<T>, b: seq<T>) {
    exists idx :: Positions(idx, 0, |b|) && Picks(a, b, idx)
  }

  ghost predicate Picks<T>(a: seq<T>, b: seq<T>, idx: seq<nat>) {
    |idx| == |a| && forall x :: 0 <= x < |a| ==> idx[x] < |b| && a[x] == b[idx[x]]
  }

  lemma {:induction false} KeptAll<T>(a: seq<T>, b: seq<T>, i: nat, j: nat)
    requires i <= |a| && j <= |b| && Kept(Script(a, b, i, j)) == |a| - i
    ensures forall x :: i <= x < |a| ==> x in Meets(Script(a, b, i, j))
    decreases |a| - i + |b| - j
  {
    hide Lcs, Script, Meets;
    ScriptStep(a, b, i, j);
    var ops := Script(a, b, i, j);
    if ops != [] {
      MeetsStep(ops, map[]);
      assert map[] + Meets(ops) == Meets(ops) && map[] + Meets(ops[1..]) == Meets(ops[1..]);
      var i', j' := if ops[0].Add? then i else i + 1, if ops[0].Drop? then j else j + 1;
      assert ops[1..] == Script(a, b, i', j');
      ScriptKeepsLcs(a, b, i', j');
      KeptAll(a, b, i', j');
    }
  }

  /** The diff keeps every line of a exactly when a is a subsequence of b. */
  lemma MeetsAllSubsequence<T>(a: seq<T>, b: seq<T>)
    ensures (forall x :: 0 <= x < |a| ==> x in Meets(Script(a, b, 0, 0))) <==> Subsequence(a, b)
  {
    hide Lcs, Script, Meets;
    var m := Meets(Script(a, b, 0, 0));
    MeetsAscend(a, b, 0, 0);
    if forall x :: 0 <= x < |a| ==> x in m {
      var idx := seq(|a|, x requires 0 <= x < |a| => m[x]);
      assert Positions(idx, 0, |b|) && Picks(a, b, idx);
    }
    if Subsequence(a, b) {
      var idx :| Positions(idx, 0, |b|) && Picks(a, b, idx);
      var p: seq<(nat, nat)> := seq(|a|, x requires 0 <= x < |a| => (x, idx[x]));
      DiffIsOptimal(p, a, b);
      ScriptKeepsLcs(a, b, 0, 0);
      KeptAll(a, b, 0, 0);
    }
  }

  /** Every rendered line finds its original exactly when the rendered lines are,
      up to white space, among the non-blank original lines in this order. */
  lemma AllAnchored(a: seq<string>, orig: seq<string>)
    ensures (forall x :: 0 <= x < |a| ==> x in Anchors(a, orig)) <==> RenderedWithin(a, orig)
  {
    hide Lcs, Script, Meets, NonBlank, Norm;
    var idx := NonBlank(orig, 0);
    NonBlankAscending(orig, 0);
    var keys, lines := Keys(a), Keys(Select(orig, idx));
    MeetsAscend(keys, lines, 0, 0);
    MeetsAllSubsequence(keys, lines);
    var met := Meets(Script(keys, lines, 0, 0));
    forall x: nat ensures x in Anchors(a, orig) <==> x in met { assert x in met ==> met[x] < |idx|; }
    assert RenderedWithin(a, orig) <==> Subsequence(keys, lines);
  }

  ghost predicate RenderedWithin(a: seq<string>, orig: seq<string>) {
    NonBlankAscending(orig, 0);
    Subsequence(Keys(a), Keys(Select(orig, NonBlank(orig, 0))))
  }

  // ----- the patch

  datatype Piece = FromOrig(k: nat) | FromEdit(j: nat)

  /** Unmatched original lines from `from` up to `stop`. */
  function Flush(matched: set<nat>, from: nat, stop: nat): seq<Piece>
    decreases stop - from
  {
    if from >= stop then []
    else (if from in matched then [] else [FromOrig(from)]) + Flush(matched, from + 1, stop)
  }

  /** Where the output lines come from, once original lines up to `last` are done.
      `guarded` is the code's `o > last` test. */
  function Plan(ops: seq<Op>, anchors: map<nat, nat>, last: int, n: nat, guarded: bool): seq<Piece>
    requires -1 <= last
  {
    if ops == [] then Flush(anchors.Values, last + 1, n)
    else
      var op := ops[0];
      if op.Add? then [FromEdit(op.j)] + Plan(ops[1..], anchors, last, n, guarded)
      else if op.i in anchors && (guarded ==> anchors[op.i] > last) then
        var o := anchors[op.i];
        Flush(anchors.Values, last + 1, o) + (if op.Keep? then [FromOrig(o)] else []) +
          Plan(ops[1..], anchors, o, n, guarded)
      else Plan(ops[1..], anchors, last, n, guarded)
  }

  predicate InBounds(p: Piece, orig: seq<string>, b: seq<string>) {
    if p.FromOrig? then p.k < |orig| else p.j < |b|
  }

  function Line(p: Piece, orig: seq<string>, b: seq<string>, end: string): string {
    if !InBounds(p, orig, b) then "" else if p.FromOrig? then orig[p.k] else b[p.j] + end
  }

  function Render(plan: seq<Piece>, orig: seq<string>, b: seq<string>, end: string): (out: seq<string>)
    ensures |out| == |plan|
  {
    seq(|plan|, t requires 0 <= t < |plan| => Line(plan[t], orig, b, end))
  }

  function PatchPlan(orig: seq<string>, a: seq<string>, b: seq<string>): seq<Piece> {
    Plan(Script(a, b, 0, 0), Anchors(a, orig), -1, |orig|, true)
  }

  /** Everything matched so far lies at or before `last`, everything else after. */
  ghost predicate Divides(anchors: map<nat, nat>, i: nat, last: int) {
    && -1 <= last
    && (forall x :: x in anchors && x < i ==> anchors[x] <= last)
    && (forall x :: x in anchors && i <= x ==> anchors[x] > last)
  }

  ghost predicate KeptLine(ops: seq<Op>, x: nat) {
    exists t :: 0 <= t < |ops| && ops[t].Keep? && ops[t].i == x
  }

  /** The line is unmatched, or matched to a rendered line that the edit keeps. */
  ghost predicate Survives(k: nat, ops: seq<Op>, anchors: map<nat, nat>) {
    k in anchors.Values ==> exists x :: x in anchors && anchors[x] == k && KeptLine(ops, x)
  }

  ghost predicate Ascending(anchors: map<nat, nat>, n: nat) {
    && (forall x :: x in anchors ==> anchors[x] < n)
    && (forall x, y :: x in anchors && y in anchors && x < y ==> anchors[x] < anchors[y])
  }

  /** Original lines appear in their own order, each at most once, all in (last, n). */
  ghost predicate InOrder(plan: seq<Piece>, last: int, n: nat) {
    && (forall t :: 0 <= t < |plan| && plan[t].FromOrig? ==> last < plan[t].k < n)
    && (forall s, t :: 0 <= s < t < |plan| && plan[s].FromOrig? && plan[t].FromOrig? ==> plan[s].k < plan[t].k)
  }

  lemma {:induction false} FlushLists(matched: set<nat>, from: nat, stop: nat)
    ensures InOrder(Flush(matched, from, stop), from - 1, stop)
    ensures forall t :: 0 <= t < |Flush(matched, from, stop)| ==> Flush(matched, from, stop)[t].FromOrig?
    ensures forall k: nat :: FromOrig(k) in Flush(matched, from, stop) <==> from <= k < stop && k !in matched
    decreases stop - from
  {
    if from < stop { FlushLists(matched, from + 1, stop); }
  }

  lemma InOrderConcat(p: seq<Piece>, q: seq<Piece>, low: int, mid: nat, n: nat)
    requires -1 <= low < mid <= n && InOrder(p, low, mid) && InOrder(q, mid - 1, n)
    ensures InOrder(p + q, low, n)
  {
  }

  /** The plan after its first operation, and the bookkeeping that still holds. */
  lemma PlanStep(a: seq<string>, b: seq<string>, i: nat, j: nat, anchors: map<nat, nat>, last: int, n: nat,
      guarded: bool)
    requires i <= |a| && j <= |b| && Ascending(anchors, n) && Divides(anchors, i, last)
    requires Script(a, b, i, j) != []
    ensures var ops := Script(a, b, i, j);
      var i', j' := if ops[0].Add? then i else i + 1, if ops[0].Drop? then j else j + 1;
      var o := if !ops[0].Add? && i in anchors then anchors[i] else last;
      && i' <= |a| && j' <= |b| && ops[0].i == i && ops[0].j == j && ops[1..] == Script(a, b, i', j')
      && (ops[0].Keep? ==> i < |a| && j < |b| && a[i] == b[j]) && (ops[0].Add? ==> j < |b|)
      && Divides(anchors, i', o)
      && Plan(ops, anchors, last, n, guarded) ==
         (if ops[0].Add? then [FromEdit(j)]
          else if i in anchors then Flush(anchors.Values, last + 1, o) + (if ops[0].Keep? then [FromOrig(o)] else [])
          else []) + Plan(ops[1..], anchors, o, n, guarded)
  {
    hide Lcs, Script, Flush;
    ScriptStep(a, b, i, j);
  }

  /** The `o > last` test always succeeds: no matched line is dropped by it. */
  lemma {:induction false} GuardNeverFails(a: seq<string>, b: seq<string>, i: nat, j: nat, anchors: map<nat, nat>,
      last: int, n: nat)
    requires i <= |a| && j <= |b| && Ascending(anchors, n) && Divides(anchors, i, last)
    ensures Plan(Script(a, b, i, j), anchors, last, n, true) == Plan(Script(a, b, i, j), anchors, last, n, false)
    decreases |a| - i + |b| - j
  {
    hide Lcs, Script, Flush;
    var ops := Script(a, b, i, j);
    if ops != [] {
      PlanStep(a, b, i, j, anchors, last, n, true);
      PlanStep(a, b, i, j, anchors, last, n, false);
      var o := if !ops[0].Add? && i in anchors then anchors[i] else last;
      GuardNeverFails(a, b, if ops[0].Add? then i else i + 1, if ops[0].Drop? then j else j + 1, anchors, o, n);
    }
  }

  lemma {:induction false} PlanInOrder(a: seq<string>, b: seq<string>, i: nat, j: nat, anchors: map<nat, nat>,
      last: int, n: nat)
    requires i <= |a| && j <= |b| && Ascending(anchors, n) && Divides(anchors, i, last) && last < n
    ensures InOrder(Plan(Script(a, b, i, j), anchors, last, n, true), last, n)
    decreases |a| - i + |b| - j
  {
    hide Lcs, Script, Flush, Plan;
    var ops := Script(a, b, i, j);
    if ops == [] {
      FlushLists(anchors.Values, last + 1, n);
      EmptyPlan(anchors, last, n);
    } else {
      PlanStep(a, b, i, j, anchors, last, n, true);
      var o := if !ops[0].Add? && i in anchors then anchors[i] else last;
      var rest := Plan(ops[1..], anchors, o, n, true);
      PlanInOrder(a, b, if ops[0].Add? then i else i + 1, if ops[0].Drop? then j else j + 1, anchors, o, n);
      if !ops[0].Add? && i in anchors {
        FlushLists(anchors.Values, last + 1, o);
        var head := Flush(anchors.Values, last + 1, o) + (if ops[0].Keep? then [FromOrig(o)] else []);
        InOrderConcat(head, rest, last, o + 1, n);
      }
    }
  }

  lemma EmptyPlan(anchors: map<nat, nat>, last: int, n: nat)
    requires -1 <= last
    ensures Plan([], anchors, last, n, true) == Flush(anchors.Values, last + 1, n)
  {
  }

  lemma {:induction false} ScriptFromIndex<T>(a: seq<T>, b: seq<T>, i: nat, j: nat)
    requires i <= |a| && j <= |b|
    ensures forall t :: 0 <= t < |Script(a, b, i, j)| ==>
      Script(a, b, i, j)[t].i >= i && (Script(a, b, i, j)[t].Add? ==> Script(a, b, i, j)[t].j < |b|)
    decreases |a| - i + |b| - j
  {
    hide Lcs, Script;
    ScriptStep(a, b, i, j);
    var ops := Script(a, b, i, j);
    if ops != [] {
      ScriptFromIndex(a, b, if ops[0].Add? then i else i + 1, if ops[0].Drop? then j else j + 1);
    }
  }

  lemma KeptLineStep(ops: seq<Op>, x: nat)
    requires ops != []
    ensures KeptLine(ops, x) <==> (ops[0].Keep? && ops[0].i == x) || KeptLine(ops[1..], x)
  {
  }

  /** Line k of the original is in the output exactly when it survives. */
  lemma {:induction false} PlanKeepsSurvivors(a: seq<string>, b: seq<string>, i: nat, j: nat, anchors: map<nat, nat>,
      last: int, n: nat, k: nat)
    requires i <= |a| && j <= |b| && Ascending(anchors, n) && Divides(anchors, i, last) && last < k < n
    requires forall x :: x in anchors ==> x < |a|
    ensures FromOrig(k) in Plan(Script(a, b, i, j), anchors, last, n, true) <==>
      Survives(k, Script(a, b, i, j), anchors)
    decreases |a| - i + |b| - j
  {
    hide Lcs, Script, Flush, Plan;
    var ops := Script(a, b, i, j);
    ScriptStep(a, b, i, j);
    if ops == [] {
      FlushLists(anchors.Values, last + 1, n);
      EmptyPlan(anchors, last, n);
    } else {
      PlanStep(a, b, i, j, anchors, last, n, true);
      var i', j' := if ops[0].Add? then i else i + 1, if ops[0].Drop? then j else j + 1;
      var o := if !ops[0].Add? && i in anchors then anchors[i] else last;
      var rest := Plan(ops[1..], anchors, o, n, true);
      forall x: nat ensures KeptLine(ops, x) <==> (ops[0].Keep? && ops[0].i == x) || KeptLine(ops[1..], x) {
        KeptLineStep(ops, x);
      }
      if o < n { PlanInOrder(a, b, i', j', anchors, o, n); }
      if !ops[0].Add? && i in anchors { FlushLists(anchors.Values, last + 1, o); }
      if o < k {
        PlanKeepsSurvivors(a, b, i', j', anchors, o, n, k);
      } else {
        ScriptFromIndex(a, b, i', j');
      }
    }
  }

  // ----- added lines, and the whole output against the edited rendering

  function EditIndices(plan: seq<Piece>): seq<nat> {
    if plan == [] then [] else (if plan[0].FromEdit? then [plan[0].j] else []) + EditIndices(plan[1..])
  }

  function AddedIndices(ops: seq<Op>): seq<nat> {
    if ops == [] then [] else (if ops[0].Add? then [ops[0].j] else []) + AddedIndices(ops[1..])
  }

  lemma {:induction false} EditIndicesConcat(p: seq<Piece>, q: seq<Piece>)
    ensures EditIndices(p + q) == EditIndices(p) + EditIndices(q)
  {
    if p == [] {
      assert p + q == q;
    } else {
      EditIndicesConcat(p[1..], q);
      assert (p + q)[0] == p[0] && (p + q)[1..] == p[1..] + q;
      var head := if p[0].FromEdit? then [p[0].j] else [];
      assert head + (EditIndices(p[1..]) + EditIndices(q)) == (head + EditIndices(p[1..])) + EditIndices(q);
    }
  }

  lemma {:induction false} NoEditIndices(p: seq<Piece>)
    requires forall t :: 0 <= t < |p| ==> p[t].FromOrig?
    ensures EditIndices(p) == []
  {
    if p != [] { NoEditIndices(p[1..]); }
  }

  /** Every added line is in the output, once and in order. */
  lemma {:induction false} PlanAddsAll(a: seq<string>, b: seq<string>, i: nat, j: nat, anchors: map<nat, nat>,
      last: int, n: nat)
    requires i <= |a| && j <= |b| && Ascending(anchors, n) && Divides(anchors, i, last)
    ensures EditIndices(Plan(Script(a, b, i, j), anchors, last, n, true)) == AddedIndices(Script(a, b, i, j))
    decreases |a| - i + |b| - j
  {
    hide Lcs, Script, Flush, Plan;
    var ops := Script(a, b, i, j);
    if ops == [] {
      FlushLists(anchors.Values, last + 1, n);
      EmptyPlan(anchors, last, n);
      NoEditIndices(Flush(anchors.Values, last + 1, n));
    } else {
      PlanStep(a, b, i, j, anchors, last, n, true);
      var o := if !ops[0].Add? && i in anchors then anchors[i] else last;
      var rest := Plan(ops[1..], anchors, o, n, true);
      PlanAddsAll(a, b, if ops[0].Add? then i else i + 1, if ops[0].Drop? then j else j + 1, anchors, o, n);
      if ops[0].Add? {
        EditIndicesConcat([FromEdit(j)], rest);
      } else if i in anchors {
        FlushLists(anchors.Values, last + 1, o);
        var head := Flush(anchors.Values, last + 1, o) + (if ops[0].Keep? then [FromOrig(o)] else []);
        NoEditIndices(head);
        EditIndicesConcat(head, rest);
      } else {
        assert [] + rest == rest;
      }
    }
  }

  lemma {:induction false} EditIndexListed(plan: seq<Piece>, t: nat)
    requires t < |plan| && plan[t].FromEdit?
    ensures plan[t].j in EditIndices(plan)
  {
    if t > 0 { EditIndexListed(plan[1..], t - 1); }
  }

  lemma {:induction false} AddedBound<T>(a: seq<T>, b: seq<T>, i: nat, j: nat)
    requires i <= |a| && j <= |b|
    ensures forall x :: 0 <= x < |AddedIndices(Script(a, b, i, j))| ==> AddedIndices(Script(a, b, i, j))[x] < |b|
    decreases |a| - i + |b| - j
  {
    hide Lcs, Script;
    ScriptStep(a, b, i, j);
    var ops := Script(a, b, i, j);
    if ops != [] {
      AddedBound(a, b, if ops[0].Add? then i else i + 1, if ops[0].Drop? then j else j + 1);
    }
  }

  lemma PatchPlanInBounds(orig: seq<string>, a: seq<string>, b: seq<string>)
    ensures forall t :: 0 <= t < |PatchPlan(orig, a, b)| ==> InBounds(PatchPlan(orig, a, b)[t], orig, b)
  {
    hide Lcs, Script, Flush, Plan, Anchors;
    var anchors := Anchors(a, orig);
    AnchorsAnchor(a, orig);
    PlanInOrder(a, b, 0, 0, anchors, -1, |orig|);
    PlanAddsAll(a, b, 0, 0, anchors, -1, |orig|);
    AddedBound(a, b, 0, 0);
    var plan := PatchPlan(orig, a, b);
    forall t | 0 <= t < |plan| && plan[t].FromEdit? ensures plan[t].j < |b| {
      EditIndexListed(plan, t);
    }
  }

  /** The output without the original lines that match nothing rendered. */
  function Visible(plan: seq<Piece>, matched: set<nat>): seq<Piece> {
    if plan == [] then []
    else (if plan[0].FromOrig? && plan[0].k !in matched then [] else [plan[0]]) + Visible(plan[1..], matched)
  }

  lemma {:induction false} VisibleConcat(p: seq<Piece>, q: seq<Piece>, matched: set<nat>)
    ensures Visible(p + q, matched) == Visible(p, matched) + Visible(q, matched)
  {
    if p == [] {
      assert p + q == q;
    } else {
      VisibleConcat(p[1..], q, matched);
      assert (p + q)[0] == p[0] && (p + q)[1..] == p[1..] + q;
      var head := if p[0].FromOrig? && p[0].k !in matched then [] else [p[0]];
      assert head + (Visible(p[1..], matched) + Visible(q, matched)) ==
        (head + Visible(p[1..], matched)) + Visible(q, matched);
    }
  }

  lemma {:induction false} FlushInvisible(matched: set<nat>, from: nat, stop: nat)
    ensures Visible(Flush(matched, from, stop), matched) == []
    decreases stop - from
  {
    if from < stop {
      FlushInvisible(matched, from + 1, stop);
      var head := if from in matched then [] else [FromOrig(from)];
      VisibleConcat(head, Flush(matched, from + 1, stop), matched);
      assert Visible(head, matched) == [];
    }
  }

  /** The pieces are, line by line and up to white space, the given lines of b. */
  ghost predicate Spells(pieces: seq<Piece>, orig: seq<string>, b: seq<string>, js: seq<nat>, end: string) {
    |pieces| == |js| && forall t :: 0 <= t < |pieces| ==> SpellsLine(pieces[t], orig, b, js[t], end)
  }

  ghost predicate SpellsLine(p: Piece, orig: seq<string>, b: seq<string>, j: nat, end: string) {
    InBounds(p, orig, b) && j < |b| && Norm(Line(p, orig, b, end)) == Norm(b[j])
  }

  /** The lines of the edited rendering that the patch shows: all but the kept ones
      whose rendered line found no original. */
  function Shown(ops: seq<Op>, anchors: map<nat, nat>): seq<nat> {
    if ops == [] then []
    else (if ops[0].Add? || (ops[0].Keep? && ops[0].i in anchors) then [ops[0].j] else []) + Shown(ops[1..], anchors)
  }

  lemma ShownStep(ops: seq<Op>, anchors: map<nat, nat>)
    ensures ops == [] ==> Shown(ops, anchors) == []
    ensures ops != [] ==>
      var shown := ops[0].Add? || (ops[0].Keep? && ops[0].i in anchors);
      Shown(ops, anchors) == (if shown then [ops[0].j] else []) + Shown(ops[1..], anchors)
  {
  }

  lemma {:induction false} AllShown(ops: seq<Op>, anchors: map<nat, nat>, n: nat)
    requires forall x :: 0 <= x < n ==> x in anchors
    requires forall t :: 0 <= t < |ops| && ops[t].Keep? ==> ops[t].i < n
    ensures Shown(ops, anchors) == NewIndices(ops)
  {
    if ops != [] { AllShown(ops[1..], anchors, n); }
  }

  lemma VisibleHead(matched: set<nat>, from: nat, o: nat, keep: bool, rest: seq<Piece>)
    requires o in matched
    ensures var mid := if keep then [FromOrig(o)] else [];
      Visible(Flush(matched, from, o) + mid + rest, matched) == mid + Visible(rest, matched)
  {
    var mid := if keep then [FromOrig(o)] else [];
    FlushInvisible(matched, from, o);
    VisibleConcat(Flush(matched, from, o), mid, matched);
    VisibleConcat(Flush(matched, from, o) + mid, rest, matched);
    assert Visible(mid, matched) == mid;
  }

  /** The output is the shown lines up to white space, interleaved with the unmatched
      original lines. */
  lemma {:induction false} PlanSpellsEdit(orig: seq<string>, a: seq<string>, b: seq<string>, i: nat, j: nat,
      anchors: map<nat, nat>, last: int, end: string)
    requires i <= |a| && j <= |b| && Anchoring(anchors, a, orig) && Divides(anchors, i, last)
    requires end == "" || end == "\r"
    ensures Spells(Visible(Plan(Script(a, b, i, j), anchors, last, |orig|, true), anchors.Values), orig, b,
                   Shown(Script(a, b, i, j), anchors), end)
    decreases |a| - i + |b| - j
  {
    hide Lcs, Script, Flush, Plan, Norm, Visible, Spells, SpellsLine, Shown;
    var ops, n := Script(a, b, i, j), |orig|;
    ScriptStep(a, b, i, j);
    ShownStep(ops, anchors);
    if ops == [] {
      EmptyPlan(anchors, last, n);
      FlushInvisible(anchors.Values, last + 1, n);
      SpellsNothing(orig, b, end);
    } else {
      PlanStep(a, b, i, j, anchors, last, n, true);
      var i', j' := if ops[0].Add? then i else i + 1, if ops[0].Drop? then j else j + 1;
      var o := if !ops[0].Add? && i in anchors then anchors[i] else last;
      var rest := Plan(ops[1..], anchors, o, n, true);
      var shown, visible := Shown(ops[1..], anchors), Visible(rest, anchors.Values);
      PlanSpellsEdit(orig, a, b, i', j', anchors, o, end);
      assert [] + rest == rest && [] + visible == visible && [] + shown == shown;
      if ops[0].Add? {
        EditSpells(orig, b, j, end);
        VisibleEdit(j, rest, anchors.Values);
        SpellsCons(FromEdit(j), visible, orig, b, j, shown, end);
      } else if i in anchors {
        VisibleHead(anchors.Values, last + 1, o, ops[0].Keep?, rest);
        if ops[0].Keep? {
          OrigSpells(orig, a, b, i, j, anchors, end);
          SpellsCons(FromOrig(o), visible, orig, b, j, shown, end);
        }
      }
    }
  }

  lemma SpellsNothing(orig: seq<string>, b: seq<string>, end: string)
    ensures Spells([], orig, b, [], end)
  {
  }

  lemma SpellsCons(p: Piece, pieces: seq<Piece>, orig: seq<string>, b: seq<string>, j: nat, js: seq<nat>, end: string)
    requires SpellsLine(p, orig, b, j, end) && Spells(pieces, orig, b, js, end)
    ensures Spells([p] + pieces, orig, b, [j] + js, end)
  {
    hide SpellsLine;
  }

  lemma EditSpells(orig: seq<string>, b: seq<string>, j: nat, end: string)
    requires j < |b| && (end == "" || end == "\r")
    ensures SpellsLine(FromEdit(j), orig, b, j, end)
  {
    hide Norm;
    NormIgnoresLineEnd(b[j], end);
  }

  lemma OrigSpells(orig: seq<string>, a: seq<string>, b: seq<string>, i: nat, j: nat, anchors: map<nat, nat>,
      end: string)
    requires Anchoring(anchors, a, orig) && i in anchors && j < |b| && a[i] == b[j]
    ensures SpellsLine(FromOrig(anchors[i]), orig, b, j, end)
  {
    hide Norm;
  }

  lemma VisibleEdit(j: nat, rest: seq<Piece>, matched: set<nat>)
    ensures Visible([FromEdit(j)] + rest, matched) == [FromEdit(j)] + Visible(rest, matched)
  {
  }

  // ----- the whole patch

  /** The patch is the diff read on the original's own lines: they stay in order
      and at most once; a line is there exactly when it is unmatched or its match
      is kept; every added line is there, in order; the `o > last` test never
      changes the outcome; and every piece names a line that exists. */
  lemma PatchIsFaithful(orig: seq<string>, a: seq<string>, b: seq<string>)
    ensures InOrder(PatchPlan(orig, a, b), -1, |orig|)
    ensures forall k: nat :: k < |orig| ==>
      (FromOrig(k) in PatchPlan(orig, a, b) <==> Survives(k, Script(a, b, 0, 0), Anchors(a, orig)))
    ensures EditIndices(PatchPlan(orig, a, b)) == AddedIndices(Script(a, b, 0, 0))
    ensures PatchPlan(orig, a, b) == Plan(Script(a, b, 0, 0), Anchors(a, orig), -1, |orig|, false)
    ensures forall t :: 0 <= t < |PatchPlan(orig, a, b)| ==> InBounds(PatchPlan(orig, a, b)[t], orig, b)
  {
    hide Lcs, Script, Flush, Plan, Anchors;
    PatchPlanInBounds(orig, a, b);
    var anchors := Anchors(a, orig);
    AnchorsAnchor(a, orig);
    PlanInOrder(a, b, 0, 0, anchors, -1, |orig|);
    PlanAddsAll(a, b, 0, 0, anchors, -1, |orig|);
    GuardNeverFails(a, b, 0, 0, anchors, -1, |orig|);
    forall k: nat | k < |orig|
      ensures FromOrig(k) in PatchPlan(orig, a, b) <==> Survives(k, Script(a, b, 0, 0), anchors)
    {
      PlanKeepsSurvivors(a, b, 0, 0, anchors, -1, |orig|, k);
    }
  }

  /** The patched file minus the unmatched original lines is, up to white space, the
      edited rendering without its kept lines that found no original. */
  lemma PatchShows(orig: seq<string>, a: seq<string>, b: seq<string>, end: string)
    requires end == "" || end == "\r"
    ensures var ops, anchors := Script(a, b, 0, 0), Anchors(a, orig);
      Spells(Visible(PatchPlan(orig, a, b), anchors.Values), orig, b, Shown(ops, anchors), end)
  {
    hide Lcs, Script, Flush, Plan, Anchors, Norm, Visible;
    AnchorsAnchor(a, orig);
    PlanSpellsEdit(orig, a, b, 0, 0, Anchors(a, orig), -1, end);
  }

  /** It is the whole edited rendering if the lines of the first rendering are, up to
      white space, among the original lines in this order. */
  lemma PatchSpellsEdit(orig: seq<string>, a: seq<string>, b: seq<string>, end: string)
    requires RenderedWithin(a, orig)
    requires end == "" || end == "\r"
    ensures Spells(Visible(PatchPlan(orig, a, b), Anchors(a, orig).Values), orig, b, Range(0, |b|), end)
  {
    hide Lcs, Script, Flush, Plan, Anchors, Norm, Visible, Spells;
    AllAnchored(a, orig);
    PatchShows(orig, a, b, end);
    DiffSpellsBoth(a, b);
    AllShown(Script(a, b, 0, 0), Anchors(a, orig), |a|);
  }

  function AllOf(from: nat, stop: nat): (p: seq<Piece>)
    ensures |p| == if from <= stop then stop - from else 0
    ensures forall t :: 0 <= t < |p| ==> p[t] == FromOrig(from + t)
  {
    seq(if from <= stop then stop - from else 0, t requires 0 <= t => FromOrig(from + t))
  }

  lemma {:induction false} FlushAll(matched: set<nat>, from: nat, stop: nat)
    requires forall k :: from <= k < stop ==> k !in matched
    ensures Flush(matched, from, stop) == AllOf(from, stop)
    decreases stop - from
  {
    if from < stop {
      FlushAll(matched, from + 1, stop);
      assert AllOf(from, stop) == [FromOrig(from)] + AllOf(from + 1, stop);
    }
  }

  lemma {:induction false} UneditedPlan(a: seq<string>, i: nat, anchors: map<nat, nat>, last: int, n: nat)
    requires i <= |a| && Ascending(anchors, n) && Divides(anchors, i, last) && last < n
    requires forall x :: x in anchors ==> x < |a|
    ensures Plan(Script(a, a, i, i), anchors, last, n, true) == AllOf(last + 1, n)
    decreases |a| - i
  {
    hide Lcs, Script, Flush, Plan;
    ScriptStep(a, a, i, i);
    var ops := Script(a, a, i, i);
    if ops == [] {
      EmptyPlan(anchors, last, n);
      FlushAll(anchors.Values, last + 1, n);
    } else {
      PlanStep(a, a, i, i, anchors, last, n, true);
      var o := if i in anchors then anchors[i] else last;
      UneditedPlan(a, i + 1, anchors, o, n);
      if i in anchors {
        FlushAll(anchors.Values, last + 1, o);
        assert AllOf(last + 1, n) == AllOf(last + 1, o) + [FromOrig(o)] + AllOf(o + 1, n);
      }
    }
  }

  /** Patching with an unchanged rendering gives back the original lines. */
  lemma UneditedPatchIsIdentity(orig: seq<string>, a: seq<string>, end: string)
    ensures Render(PatchPlan(orig, a, a), orig, a, end) == orig
  {
    AnchorsAnchor(a, orig);
    hide Lcs, Script, Flush, Plan, Anchors;
    UneditedPlan(a, 0, Anchors(a, orig), -1, |orig|);
  }

  // ----- the method

  method AnchorLines(a: seq<string>, orig: seq<string>) returns (aToOrig: map<nat, nat>)
    requires |a| <= MAX_INT32
    ensures aToOrig == Anchors(a, orig)
  {
    hide Lcs, Script, Norm, TrimSpace;
    var origKeys: seq<string>, origIdx: seq<nat> := [], [];
    NonBlankAscending(orig, 0);
    for k := 0 to |orig|
      invariant origIdx + NonBlank(orig, k) == NonBlank(orig, 0)
      invariant |origKeys| == |origIdx|
      invariant forall x :: 0 <= x < |origIdx| ==> origIdx[x] < |orig| && origKeys[x] == Norm(orig[origIdx[x]])
    {
      if TrimSpace(orig[k]) != "" {
        origKeys, origIdx := origKeys + [Norm(orig[k])], origIdx + [k];
      }
    }
    assert origIdx == NonBlank(orig, 0);
    var aKeys := Keys(a);
    assert origKeys == Keys(Select(orig, origIdx));
    var ops := DiffLines(aKeys, origKeys);
    ScriptKeepsEqual(aKeys, origKeys, 0, 0);
    aToOrig := CollectAnchors(ops, origIdx);
  }

  method CollectAnchors(ops: seq<Op>, origIdx: seq<nat>) returns (aToOrig: map<nat, nat>)
    requires forall t :: 0 <= t < |ops| && ops[t].Keep? ==> ops[t].j < |origIdx|
    ensures aToOrig == Through(Meets(ops), origIdx)
  {
    hide Meets, Through;
    aToOrig := map[];
    ghost var met: map<nat, nat> := map[];
    assert aToOrig == Through(met, origIdx) by { ThroughEmpty(origIdx); }
    for t := 0 to |ops|
      invariant met + Meets(ops[t..]) == Meets(ops)
      invariant aToOrig == Through(met, origIdx)
    {
      MeetsStep(ops[t..], met);
      assert ops[t..][0] == ops[t] && ops[t..][1..] == ops[t + 1..];
      if ops[t].Keep? {
        ThroughUpdate(met, ops[t].i, ops[t].j, origIdx);
        aToOrig := aToOrig[ops[t].i := origIdx[ops[t].j]];
        met := met[ops[t].i := ops[t].j];
      }
    }
    assert ops[|ops|..] == [];
    MeetsEmpty();
    assert met + map[] == met;
  }

  lemma ThroughEmpty(idx: seq<nat>)
    ensures Through(map[], idx) == map[]
  {
  }

  lemma MeetsEmpty()
    ensures Meets([]) == map[]
  {
  }

  lemma ThroughUpdate(met: map<nat, nat>, i: nat, j: nat, idx: seq<nat>)
    requires j < |idx|
    ensures Through(met[i := j], idx) == Through(met, idx)[i := idx[j]]
  {
  }

  lemma MeetsStep(ops: seq<Op>, met: map<nat, nat>)
    requires ops != []
    ensures met + Meets(ops) == (if ops[0].Keep? then met[ops[0].i := ops[0].j] else met) + Meets(ops[1..])
  {
  }

  lemma RenderConcat(p: seq<Piece>, q: seq<Piece>, orig: seq<string>, b: seq<string>, end: string)
    ensures Render(p + q, orig, b, end) == Render(p, orig, b, end) + Render(q, orig, b, end)
  {
  }

  lemma RenderOne(p: Piece, orig: seq<string>, b: seq<string>, end: string)
    ensures Render([p], orig, b, end) == [Line(p, orig, b, end)]
  {
  }

  lemma FlushEmpty(matched: set<nat>, from: nat, stop: nat)
    requires from >= stop
    ensures Flush(matched, from, stop) == []
  {
  }

  lemma {:induction false} FlushSnoc(matched: set<nat>, from: nat, stop: nat)
    requires from <= stop
    ensures stop in matched ==> Flush(matched, from, stop + 1) == Flush(matched, from, stop)
    ensures stop !in matched ==> Flush(matched, from, stop + 1) == Flush(matched, from, stop) + [FromOrig(stop)]
    decreases stop - from
  {
    if from < stop { FlushSnoc(matched, from + 1, stop); }
  }

  method FlushTo(orig: seq<string>, mapped: set<nat>, last: int, o: nat, ghost b: seq<string>, ghost end: string)
    returns (lines: seq<string>)
    requires -1 <= last && o <= |orig|
    ensures lines == Render(Flush(mapped, last + 1, o), orig, b, end)
  {
    hide Flush, Render;
    lines := [];
    var k := last + 1;
    FlushEmpty(mapped, k, k);
    while k < o
      invariant last + 1 <= k && (k <= o || k == last + 1)
      invariant lines == Render(Flush(mapped, last + 1, k), orig, b, end)
    {
      FlushSnoc(mapped, last + 1, k);
      if k !in mapped {
        RenderConcat(Flush(mapped, last + 1, k), [FromOrig(k)], orig, b, end);
        RenderOne(FromOrig(k), orig, b, end);
        lines := lines + [orig[k]];
      }
      k := k + 1;
    }
    if o < k { FlushEmpty(mapped, last + 1, o); FlushEmpty(mapped, last + 1, last + 1); }
  }

  /** The pieces rendered so far and those to come make the whole plan. */
  ghost predicate Ahead(done: seq<Piece>, rest: seq<Piece>, whole: seq<Piece>) { done + rest == whole }

  lemma Onward(done: seq<Piece>, p: seq<Piece>, rest: seq<Piece>, whole: seq<Piece>)
    ensures Ahead(done, p + rest, whole) <==> Ahead(done + p, rest, whole)
  {
    assert done + (p + rest) == done + p + rest;
  }

  lemma AheadEnds(done: seq<Piece>, rest: seq<Piece>, whole: seq<Piece>)
    ensures Ahead([], whole, whole) && (Ahead(done, rest, whole) <==> done + rest == whole)
  {
  }

  /** What one operation writes, and how far in the original it gets. */
  function Written(op: Op, anchors: map<nat, nat>, last: int): seq<Piece>
    requires -1 <= last
  {
    if op.Add? then [FromEdit(op.j)]
    else if op.i in anchors && anchors[op.i] > last then
      Flush(anchors.Values, last + 1, anchors[op.i]) + if op.Keep? then [FromOrig(anchors[op.i])] else []
    else []
  }

  function Reached(op: Op, anchors: map<nat, nat>, last: int): int {
    if !op.Add? && op.i in anchors && anchors[op.i] > last then anchors[op.i] else last
  }

  lemma PlanOpStep(ops: seq<Op>, t: nat, anchors: map<nat, nat>, last: int, n: nat)
    requires t < |ops| && -1 <= last
    ensures Plan(ops[t..], anchors, last, n, true) ==
      Written(ops[t], anchors, last) + Plan(ops[t + 1..], anchors, Reached(ops[t], anchors, last), n, true)
  {
    hide Flush;
    assert ops[t..][0] == ops[t] && ops[t..][1..] == ops[t + 1..];
  }

  /** The body of the output loop. */
  method PatchOp(orig: seq<string>, b: seq<string>, end: string, op: Op, anchors: map<nat, nat>, last: int)
      returns (lines: seq<string>, next: int)
    requires -1 <= last < |orig|
    requires op.Add? ==> op.j < |b|
    requires op.i in anchors ==> anchors[op.i] < |orig|
    ensures lines == Render(Written(op, anchors, last), orig, b, end)
    ensures next == Reached(op, anchors, last) && -1 <= next < |orig|
  {
    hide Flush, Render;
    lines, next := [], last;
    RenderNothing(orig, b, end);
    if op.Add? {
      RenderOne(FromEdit(op.j), orig, b, end);
      lines := [b[op.j] + end];
    } else if op.i in anchors && anchors[op.i] > last {
      var o := anchors[op.i];
      lines := FlushTo(orig, anchors.Values, last, o, b, end);
      ghost var flushed := Flush(anchors.Values, last + 1, o);
      assert flushed + [] == flushed;
      if op.Keep? {
        RenderConcat(flushed, [FromOrig(o)], orig, b, end);
        RenderOne(FromOrig(o), orig, b, end);
        lines := lines + [orig[o]];
      }
      next := o;
    }
  }

  /** The lines of the patched file. */
  method PatchLines(orig: seq<string>, a: seq<string>, b: seq<string>, end: string) returns (out: seq<string>)
    requires |a| <= MAX_INT32
    ensures out == Render(PatchPlan(orig, a, b), orig, b, end)
  {
    hide Lcs, Script, Anchors, Flush, Render, Plan, Ahead, Written, Reached;
    var aToOrig := AnchorLines(a, orig);
    AnchorsAnchor(a, orig);
    var ops := DiffLines(a, b);
    ScriptFromIndex(a, b, 0, 0);
    out := [];
    ghost var done: seq<Piece> := [];
    var last := -1;
    var n := |orig|;
    ghost var whole := Plan(ops, aToOrig, -1, n, true);
    assert ops[0..] == ops && ops[|ops|..] == [];
    AheadEnds([], whole, whole);
    RenderNothing(orig, b, end);
    for t := 0 to |ops|
      invariant -1 <= last < n
      invariant out == Render(done, orig, b, end)
      invariant Ahead(done, Plan(ops[t..], aToOrig, last, n, true), whole)
    {
      PlanOpStep(ops, t, aToOrig, last, n);
      ghost var p := Written(ops[t], aToOrig, last);
      var lines, next := PatchOp(orig, b, end, ops[t], aToOrig, last);
      RenderConcat(done, p, orig, b, end);
      Onward(done, p, Plan(ops[t + 1..], aToOrig, next, n, true), whole);
      done, out, last := done + p, out + lines, next;
    }
    EmptyPlan(aToOrig, last, n);
    AheadEnds(done, Flush(aToOrig.Values, last + 1, n), whole);
    var lines := FlushTo(orig, aToOrig.Values, last, n, b, end);
    RenderConcat(done, Flush(aToOrig.Values, last + 1, n), orig, b, end);
    out := out + lines;
  }

  lemma RenderNothing(orig: seq<string>, b: seq<string>, end: string)
    ensures Render([], orig, b, end) == []
  {
  }

  // ----- file text

  function SplitNewlines(s: string): (parts: seq<string>)
    ensures |parts| > 0
  {
    if s == "" then [""]
    else
      var rest := SplitNewlines(s[1..]);
      if s[0] == '\n' then [""] + rest else [[s[0]] + rest[0]] + rest[1..]
  }

  function TrimNewline(s: string): string {
    if HasSuffix(s, "\n") then s[..|s| - 1] else s
  }

  function TextLines(s: string): seq<string> {
    if TrimNewline(s) == "" then [] else SplitNewlines(TrimNewline(s))
  }

  function WithoutCr(s: string): string
    decreases |s|
  {
    if s == "" then ""
    else if HasPrefix(s, "\r\n") then "\n" + WithoutCr(s[2..])
    else [s[0]] + WithoutCr(s[1..])
  }

  function CountOf(s: string, sub: string): nat
    requires sub != ""
    decreases |s|
  {
    if s == "" then 0
    else if HasPrefix(s, sub) then 1 + CountOf(s[|sub|..], sub)
    else CountOf(s[1..], sub)
  }

  function NewLineEnd(original: string): (end: string)
    ensures end == "" || end == "\r"
  {
    if 2 * CountOf(original, "\r\n") > CountOf(original, "\n") then "\r" else ""
  }

  function Assemble(lines: seq<string>, original: string): string {
    Join(lines, "\n") + if HasSuffix(original, "\n") then "\n" else ""
  }

  function PatchedLines(original: string, r0: string, r1: string): seq<string> {
    var orig, a, b := TextLines(original), TextLines(WithoutCr(r0)), TextLines(WithoutCr(r1));
    Render(PatchPlan(orig, a, b), orig, b, NewLineEnd(original))
  }

  lemma {:induction false} JoinSplit(s: string)
    ensures Join(SplitNewlines(s), "\n") == s
  {
    if s != "" {
      JoinSplit(s[1..]);
      var rest := SplitNewlines(s[1..]);
      if s[0] == '\n' {
        assert SplitNewlines(s)[1..] == rest;
      } else {
        assert SplitNewlines(s)[1..] == rest[1..];
      }
    }
  }

  lemma AssembleTextLines(s: string)
    ensures Assemble(TextLines(s), s) == s
  {
    JoinSplit(TrimNewline(s));
  }

  /** patched, given the two renderings. With equal renderings it answers the
      original text at once, which is also what the line patch would give. */
  method Patched(original: string, r0: string, r1: string) returns (text: string)
    requires |TextLines(WithoutCr(r0))| <= MAX_INT32
    ensures text == Assemble(PatchedLines(original, r0, r1), original)
    ensures r0 == r1 ==> text == original
  {
    var orig, a := TextLines(original), TextLines(WithoutCr(r0));
    UneditedPatchIsIdentity(orig, a, NewLineEnd(original));
    AssembleTextLines(original);
    if r0 == r1 { return original; }
    var out := PatchLines(orig, a, TextLines(WithoutCr(r1)), NewLineEnd(original));
    text := Assemble(out, original);
  }
}
