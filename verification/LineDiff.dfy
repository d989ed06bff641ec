/** diffLines of cmd/egw-desktop/yamledit.go: an LCS line diff. */
module LineDiff {

  datatype Op = Keep(i: nat, j: nat) | Drop(i: nat, j: nat) | Add(i: nat, j: nat)

  newtype int32 = x: int | -0x8000_0000 <= x < 0x8000_0000

  const MAX_INT32 := 0x7fff_ffff

  /** The dynamic-programming recurrence the table is filled by. */
  function Lcs<T(==)>(a: seq<T>, b: seq<T>, i: nat, j: nat): (n: nat)
    requires i <= |a| && j <= |b|
    ensures n <= |a| - i
    decreases |a| - i + |b| - j
  {
    if i == |a| || j == |b| then 0
    else if a[i] == b[j] then Lcs(a, b, i + 1, j + 1) + 1
    else if Lcs(a, b, i + 1, j) >= Lcs(a, b, i, j + 1) then Lcs(a, b, i + 1, j)
    else Lcs(a, b, i, j + 1)
  }

  /** The edit script the walk emits from position (i, j). */
  function Script<T(==)>(a: seq<T>, b: seq<T>, i: nat, j: nat): seq<Op>
    requires i <= |a| && j <= |b|
    decreases |a| - i + |b| - j
  {
    if i < |a| && j < |b| then
      if a[i] == b[j] then [Keep(i, j)] + Script(a, b, i + 1, j + 1)
      else if Lcs(a, b, i + 1, j) >= Lcs(a, b, i, j + 1) then [Drop(i, j)] + Script(a, b, i + 1, j)
      else [Add(i, j)] + Script(a, b, i, j + 1)
    else if i < |a| then [Drop(i, j)] + Script(a, b, i + 1, j)
    else if j < |b| then [Add(i, j)] + Script(a, b, i, j + 1)
    else []
  }

  /** Row x of the table is right from column `from` on. */
  ghost predicate RowFilled<T>(a: seq<T>, b: seq<T>, lcs: array2<int32>, x: int, from: int)
    reads lcs
    requires lcs.Length0 == |a| + 1 && lcs.Length1 == |b| + 1
  {
    0 <= x <= |a| && forall y :: 0 <= y <= |b| && from <= y ==> lcs[x, y] as int == Lcs(a, b, x, y)
  }

  ghost predicate Filled<T>(a: seq<T>, b: seq<T>, lcs: array2<int32>)
    reads lcs
  {
    && lcs.Length0 == |a| + 1 && lcs.Length1 == |b| + 1
    && forall x :: 0 <= x <= |a| ==> RowFilled(a, b, lcs, x, 0)
  }

  method FillRow<T(==)>(a: seq<T>, b: seq<T>, lcs: array2<int32>, i: nat)
    requires lcs.Length0 == |a| + 1 && lcs.Length1 == |b| + 1 && i < |a| <= MAX_INT32
    requires RowFilled(a, b, lcs, i + 1, 0) && lcs[i, |b|] == 0
    modifies lcs
    ensures RowFilled(a, b, lcs, i, 0)
    ensures forall x, y :: 0 <= x <= |a| && 0 <= y <= |b| && x != i ==> lcs[x, y] == old(lcs[x, y])
  {
    var m := |b|;
    var j := m - 1;
    while j >= 0
      invariant -1 <= j < m
      invariant RowFilled(a, b, lcs, i, j + 1)
      invariant forall x, y :: 0 <= x <= |a| && 0 <= y <= |b| && x != i ==> lcs[x, y] == old(lcs[x, y])
    {
      assert lcs[i + 1, j] as int == Lcs(a, b, i + 1, j) && lcs[i + 1, j + 1] as int == Lcs(a, b, i + 1, j + 1);
      if a[i] == b[j] {
        lcs[i, j] := lcs[i + 1, j + 1] + 1;
      } else if lcs[i + 1, j] >= lcs[i, j + 1] {
        lcs[i, j] := lcs[i + 1, j];
      } else {
        lcs[i, j] := lcs[i, j + 1];
      }
      j := j - 1;
    }
  }

  method FillTable<T(==)>(a: seq<T>, b: seq<T>) returns (lcs: array2<int32>)
    requires |a| <= MAX_INT32
    ensures fresh(lcs) && Filled(a, b, lcs)
  {
    lcs := new int32[|a| + 1, |b| + 1]((_, _) => 0);
    assert RowFilled(a, b, lcs, |a|, 0);
    hide Lcs;
    var i := |a| - 1;
    while i >= 0
      invariant -1 <= i < |a|
      invariant forall x :: i < x <= |a| ==> RowFilled(a, b, lcs, x, 0)
      invariant forall x :: 0 <= x <= i ==> lcs[x, |b|] == 0
    {
      label before:
      FillRow(a, b, lcs, i);
      forall x | i < x <= |a| ensures RowFilled(a, b, lcs, x, 0) {
        assert old@before(RowFilled(a, b, lcs, x, 0));
      }
      i := i - 1;
    }
  }

  method DiffLines<T(==)>(a: seq<T>, b: seq<T>) returns (ops: seq<Op>)
    requires |a| <= MAX_INT32
    ensures ops == Script(a, b, 0, 0)
  {
    hide Lcs, Script;
    var n, m := |a|, |b|;
    var lcs := FillTable(a, b);
    ops := [];
    var i, j := 0, 0;
    while i < n && j < m
      invariant 0 <= i <= n && 0 <= j <= m
      invariant ops + Script(a, b, i, j) == Script(a, b, 0, 0)
      modifies {}
    {
      ScriptStep(a, b, i, j);
      assert RowFilled(a, b, lcs, i, 0) && RowFilled(a, b, lcs, i + 1, 0);
      if a[i] == b[j] {
        ops := ops + [Keep(i, j)];
        i, j := i + 1, j + 1;
      } else if lcs[i + 1, j] >= lcs[i, j + 1] {
        ops := ops + [Drop(i, j)];
        i := i + 1;
      } else {
        ops := ops + [Add(i, j)];
        j := j + 1;
      }
    }
    while i < n
      invariant 0 <= i <= n && 0 <= j <= m && (i == n || j == m)
      invariant ops + Script(a, b, i, j) == Script(a, b, 0, 0)
    {
      ScriptStep(a, b, i, j);
      ops := ops + [Drop(i, j)];
      i := i + 1;
    }
    while j < m
      invariant i == n && 0 <= j <= m
      invariant ops + Script(a, b, i, j) == Script(a, b, 0, 0)
    {
      ScriptStep(a, b, i, j);
      ops := ops + [Add(i, j)];
      j := j + 1;
    }
    ScriptStep(a, b, n, m);
  }

  lemma ScriptStep<T>(a: seq<T>, b: seq<T>, i: nat, j: nat)
    requires i <= |a| && j <= |b|
    ensures i == |a| && j == |b| ==> Script(a, b, i, j) == []
    ensures i == |a| && j < |b| ==> Script(a, b, i, j) == [Add(i, j)] + Script(a, b, i, j + 1)
    ensures i < |a| && j == |b| ==> Script(a, b, i, j) == [Drop(i, j)] + Script(a, b, i + 1, j)
    ensures i < |a| && j < |b| ==>
      Script(a, b, i, j) ==
      if a[i] == b[j] then [Keep(i, j)] + Script(a, b, i + 1, j + 1)
      else if Lcs(a, b, i + 1, j) >= Lcs(a, b, i, j + 1) then [Drop(i, j)] + Script(a, b, i + 1, j)
      else [Add(i, j)] + Script(a, b, i, j + 1)
  {
  }

  // ----- a script is a valid edit

  /** Indices of `a` that the script keeps or drops, in order. */
  function OldIndices(ops: seq<Op>): seq<nat> {
    if ops == [] then [] else (if ops[0].Add? then [] else [ops[0].i]) + OldIndices(ops[1..])
  }

  /** Indices of `b` that the script keeps or adds, in order. */
  function NewIndices(ops: seq<Op>): seq<nat> {
    if ops == [] then [] else (if ops[0].Drop? then [] else [ops[0].j]) + NewIndices(ops[1..])
  }

  function Range(from: nat, to: nat): (r: seq<nat>)
    requires from <= to
    ensures |r| == to - from && forall k :: 0 <= k < |r| ==> r[k] == from + k
  {
    seq(to - from, k requires 0 <= k => from + k)
  }

  ghost predicate KeepsEqualLines<T>(ops: seq<Op>, a: seq<T>, b: seq<T>) {
    forall op :: op in ops && op.Keep? ==> op.i < |a| && op.j < |b| && a[op.i] == b[op.j]
  }

  lemma {:induction false} ScriptSpellsOld<T>(a: seq<T>, b: seq<T>, i: nat, j: nat)
    requires i <= |a| && j <= |b|
    ensures OldIndices(Script(a, b, i, j)) == Range(i, |a|)
    decreases |a| - i + |b| - j
  {
    hide Lcs, Script;
    ScriptStep(a, b, i, j);
    var ops := Script(a, b, i, j);
    if ops != [] {
      ScriptSpellsOld(a, b, if ops[0].Add? then i else i + 1, if ops[0].Drop? then j else j + 1);
      assert !ops[0].Add? ==> Range(i, |a|) == [i] + Range(i + 1, |a|);
    }
  }

  lemma {:induction false} ScriptSpellsNew<T>(a: seq<T>, b: seq<T>, i: nat, j: nat)
    requires i <= |a| && j <= |b|
    ensures NewIndices(Script(a, b, i, j)) == Range(j, |b|)
    decreases |a| - i + |b| - j
  {
    hide Lcs, Script;
    ScriptStep(a, b, i, j);
    var ops := Script(a, b, i, j);
    if ops != [] {
      ScriptSpellsNew(a, b, if ops[0].Add? then i else i + 1, if ops[0].Drop? then j else j + 1);
      assert !ops[0].Drop? ==> Range(j, |b|) == [j] + Range(j + 1, |b|);
    }
  }

  lemma {:induction false} ScriptKeepsEqual<T>(a: seq<T>, b: seq<T>, i: nat, j: nat)
    requires i <= |a| && j <= |b|
    ensures KeepsEqualLines(Script(a, b, i, j), a, b)
    decreases |a| - i + |b| - j
  {
    hide Lcs, Script;
    ScriptStep(a, b, i, j);
    var ops := Script(a, b, i, j);
    if ops != [] {
      ScriptKeepsEqual(a, b, if ops[0].Add? then i else i + 1, if ops[0].Drop? then j else j + 1);
    }
  }

  /** The kept and dropped lines spell out `a`, the kept and added ones `b`, and
      every kept line is the same on both sides. */
  lemma DiffSpellsBoth<T>(a: seq<T>, b: seq<T>)
    ensures OldIndices(Script(a, b, 0, 0)) == Range(0, |a|)
    ensures NewIndices(Script(a, b, 0, 0)) == Range(0, |b|)
    ensures KeepsEqualLines(Script(a, b, 0, 0), a, b)
  {
    hide *;
    ScriptSpellsOld(a, b, 0, 0);
    ScriptSpellsNew(a, b, 0, 0);
    ScriptKeepsEqual(a, b, 0, 0);
  }

  function Kept(ops: seq<Op>): nat {
    if ops == [] then 0 else (if ops[0].Keep? then 1 else 0) + Kept(ops[1..])
  }

  lemma {:induction false} ScriptKeepsLcs<T>(a: seq<T>, b: seq<T>, i: nat, j: nat)
    requires i <= |a| && j <= |b|
    ensures Kept(Script(a, b, i, j)) == Lcs(a, b, i, j)
    decreases |a| - i + |b| - j
  {
    var ops := Script(a, b, i, j);
    if ops != [] {
      var i', j' := if ops[0].Add? then i else i + 1, if ops[0].Drop? then j else j + 1;
      assert ops[1..] == Script(a, b, i', j');
      ScriptKeepsLcs(a, b, i', j');
    }
  }

  // ----- and no edit keeps more

  /** A common subsequence, as index pairs. */
  ghost predicate CommonSubsequence<T>(p: seq<(nat, nat)>, a: seq<T>, b: seq<T>) {
    && (forall k :: 0 <= k < |p| ==> p[k].0 < |a| && p[k].1 < |b| && a[p[k].0] == b[p[k].1])
    && forall k, l :: 0 <= k < l < |p| ==> p[k].0 < p[l].0 && p[k].1 < p[l].1
  }

  lemma {:induction false} LcsIsMaximal<T>(p: seq<(nat, nat)>, a: seq<T>, b: seq<T>, i: nat, j: nat)
    requires CommonSubsequence(p, a, b) && i <= |a| && j <= |b|
    requires forall k :: 0 <= k < |p| ==> i <= p[k].0 && j <= p[k].1
    ensures |p| <= Lcs(a, b, i, j)
    decreases |a| - i + |b| - j
  {
    if p != [] {
      assert i <= p[0].0 < |a| && j <= p[0].1 < |b|;
      if a[i] == b[j] {
        LcsIsMaximal(p[1..], a, b, i + 1, j + 1);
      } else if p[0].0 > i {
        LcsIsMaximal(p, a, b, i + 1, j);
      } else {
        LcsIsMaximal(p, a, b, i, j + 1);
      }
    }
  }

  /** diffLines keeps as many lines as any common subsequence has. */
  lemma DiffIsOptimal<T>(p: seq<(nat, nat)>, a: seq<T>, b: seq<T>)
    requires CommonSubsequence(p, a, b)
    ensures |p| <= Kept(Script(a, b, 0, 0))
  {
    LcsIsMaximal(p, a, b, 0, 0);
    ScriptKeepsLcs(a, b, 0, 0);
  }
}
