/** internal/redact/hook.go: projection of a JSON response onto its allowed fields. */
module ResponseShape {
  import opened Strings

  datatype Json = Null | Scalar(text: string) | Arr(items: seq<Json>) | Obj(fields: map<string, Json>)

  const EACH := "[]"

  // ----- the operations

  /** project: None when the path is absent. A "[]" segment maps over an array,
      leaving Null where an element has nothing at the rest of the path. */
  function Project(src: Json, parts: seq<string>): Option<Json>
    decreases parts, 0
  {
    if parts == [] then Some(src)
    else if src.Null? then Some(Null)
    else if parts[0] == EACH then
      if !src.Arr? || !AnyFound(src.items, parts[1..]) then None
      else Some(Arr(seq(|src.items|, i requires 0 <= i < |src.items| => OrNull(Project(src.items[i], parts[1..])))))
    else if !src.Obj? || parts[0] !in src.fields then None
    else
      var v := Project(src.fields[parts[0]], parts[1..]);
      if v.None? then None else Some(Obj(map[parts[0] := v.value]))
  }

  predicate AnyFound(items: seq<Json>, parts: seq<string>)
    decreases parts, 1
  {
    items == [] || exists i :: 0 <= i < |items| && Project(items[i], parts).Some?
  }

  function OrNull(v: Option<Json>): Json {
    if v.Some? then v.value else Null
  }

  /** mergeValues, with deepMerge for objects. */
  function Merge(a: Json, b: Json): Json {
    if a.Obj? && b.Obj? then
      Obj(map k | k in a.fields.Keys + b.fields.Keys ::
        if k in a.fields && k in b.fields then Merge(a.fields[k], b.fields[k])
        else if k in a.fields then a.fields[k] else b.fields[k])
    else if a.Arr? && b.Arr? then
      Arr(seq(if |a.items| < |b.items| then |b.items| else |a.items|,
        i requires 0 <= i && (i < |a.items| || i < |b.items|) =>
          if i >= |a.items| || a.items[i].Null? then (if i < |b.items| then b.items[i] else Null)
          else if i >= |b.items| || b.items[i].Null? then a.items[i]
          else Merge(a.items[i], b.items[i])))
    else if b.Null? then a else b
  }

  /** The loop of Shape: projections merged left to right. */
  function MergeAll(result: Json, data: Json, paths: seq<seq<string>>): Json
    decreases paths
  {
    if paths == [] then result
    else
      var v := Project(data, paths[0]);
      MergeAll(if v.Some? && v.value.Obj? then Merge(result, v.value) else result, data, paths[1..])
  }

  function ShapeOf(data: Json, paths: seq<seq<string>>): Json {
    MergeAll(Obj(map[]), data, paths)
  }

  // ----- the order in which merging is a least upper bound

  /** b is a part of x: objects may lack keys, arrays keep their length but may
      hold Null instead of an element, everything else is unchanged. */
  ghost predicate Part(b: Json, x: Json) {
    match b
    case Null => x.Null?
    case Scalar(_) => x == b
    case Arr(items) =>
      && x.Arr? && |items| == |x.items|
      && forall i :: 0 <= i < |items| ==> items[i].Null? || Part(items[i], x.items[i])
    case Obj(fields) =>
      && x.Obj?
      && forall k :: k in fields ==> k in x.fields && Part(fields[k], x.fields[k])
  }

  lemma {:induction false} PartReflexive(x: Json)
    ensures Part(x, x)
  {
    match x
    case Arr(items) =>
      forall i | 0 <= i < |items| ensures Part(items[i], items[i]) { PartReflexive(items[i]); }
    case Obj(fields) =>
      forall k | k in fields ensures Part(fields[k], fields[k]) { PartReflexive(fields[k]); }
    case _ =>
  }

  lemma {:induction false} PartTransitive(b: Json, c: Json, x: Json)
    requires Part(b, c) && Part(c, x)
    ensures Part(b, x)
  {
    match b
    case Arr(items) =>
      forall i | 0 <= i < |items| && !items[i].Null? ensures Part(items[i], x.items[i]) {
        PartTransitive(items[i], c.items[i], x.items[i]);
      }
    case Obj(fields) =>
      forall k | k in fields ensures k in x.fields && Part(fields[k], x.fields[k]) {
        PartTransitive(fields[k], c.fields[k], x.fields[k]);
      }
    case _ =>
  }

  lemma {:induction false} PartAntisymmetric(b: Json, c: Json)
    requires Part(b, c) && Part(c, b)
    ensures b == c
  {
    match b
    case Arr(items) =>
      forall i | 0 <= i < |items| ensures items[i] == c.items[i] {
        if !items[i].Null? && !c.items[i].Null? { PartAntisymmetric(items[i], c.items[i]); }
      }
    case Obj(fields) =>
      forall k | k in fields ensures k in c.fields && fields[k] == c.fields[k] {
        PartAntisymmetric(fields[k], c.fields[k]);
      }
      assert fields.Keys == c.fields.Keys;
    case _ =>
  }

  /** A projection is a part of what it was taken from. */
  lemma {:induction false} ProjectIsPart(x: Json, parts: seq<string>)
    requires Project(x, parts).Some?
    ensures Part(Project(x, parts).value, x)
    decreases parts
  {
    if parts == [] {
      PartReflexive(x);
    } else if !x.Null? {
      if parts[0] == EACH {
        forall i | 0 <= i < |x.items| && Project(x.items[i], parts[1..]).Some?
          ensures Part(Project(x.items[i], parts[1..]).value, x.items[i])
        {
          ProjectIsPart(x.items[i], parts[1..]);
        }
      } else {
        ProjectIsPart(x.fields[parts[0]], parts[1..]);
      }
    }
  }

  /** Merging two parts of x stays a part of x ... */
  lemma {:induction false} MergeIsLeast(b: Json, c: Json, x: Json)
    requires Part(b, x) && Part(c, x)
    ensures Part(Merge(b, c), x)
  {
    var m := Merge(b, c);
    if b.Obj? && c.Obj? {
      forall k | k in m.fields ensures k in x.fields && Part(m.fields[k], x.fields[k]) {
        if k in b.fields && k in c.fields { MergeIsLeast(b.fields[k], c.fields[k], x.fields[k]); }
      }
    } else if b.Arr? && c.Arr? {
      forall i | 0 <= i < |m.items| && !m.items[i].Null? ensures Part(m.items[i], x.items[i]) {
        if !b.items[i].Null? && !c.items[i].Null? { MergeIsLeast(b.items[i], c.items[i], x.items[i]); }
      }
    }
  }

  /** ... and contains both of them. */
  lemma {:induction false} MergeIsUpper(b: Json, c: Json, x: Json)
    requires Part(b, x) && Part(c, x)
    ensures Part(b, Merge(b, c)) && Part(c, Merge(b, c))
  {
    var m := Merge(b, c);
    if b.Obj? && c.Obj? {
      forall k | k in b.fields ensures k in m.fields && Part(b.fields[k], m.fields[k]) {
        if k in c.fields { MergeIsUpper(b.fields[k], c.fields[k], x.fields[k]); } else { PartReflexive(b.fields[k]); }
      }
      forall k | k in c.fields ensures k in m.fields && Part(c.fields[k], m.fields[k]) {
        if k in b.fields { MergeIsUpper(b.fields[k], c.fields[k], x.fields[k]); } else { PartReflexive(c.fields[k]); }
      }
    } else if b.Arr? && c.Arr? {
      forall i | 0 <= i < |m.items|
        ensures b.items[i].Null? || Part(b.items[i], m.items[i])
        ensures c.items[i].Null? || Part(c.items[i], m.items[i])
      {
        if b.items[i].Null? { PartReflexive(c.items[i]); }
        else if c.items[i].Null? { PartReflexive(b.items[i]); }
        else { MergeIsUpper(b.items[i], c.items[i], x.items[i]); }
      }
    } else {
      PartReflexive(b);
      PartReflexive(c);
    }
  }

  /** Merging a part of x back into x changes nothing: an in-place merge of a
      projection into its own source is harmless. */
  lemma MergeIntoSource(x: Json, b: Json)
    requires Part(b, x)
    ensures Merge(x, b) == x && Merge(b, x) == x
  {
    PartReflexive(x);
    MergeIsLeast(x, b, x);
    MergeIsUpper(x, b, x);
    PartAntisymmetric(Merge(x, b), x);
    MergeIsLeast(b, x, x);
    MergeIsUpper(b, x, x);
    PartAntisymmetric(Merge(b, x), x);
  }

  // ----- Shape is the least upper bound of the projections

  ghost predicate Covers(r: Json, data: Json, paths: seq<seq<string>>) {
    forall p :: p in paths && Project(data, p).Some? && Project(data, p).value.Obj? ==> Part(Project(data, p).value, r)
  }

  lemma {:induction false} MergeAllBounds(result: Json, data: Json, paths: seq<seq<string>>)
    requires data.Obj? && result.Obj? && Part(result, data)
    ensures Part(MergeAll(result, data, paths), data) && MergeAll(result, data, paths).Obj?
    ensures Part(result, MergeAll(result, data, paths))
    ensures Covers(MergeAll(result, data, paths), data, paths)
    decreases paths
  {
    if paths == [] {
      PartReflexive(result);
    } else {
      var v := Project(data, paths[0]);
      var next := if v.Some? && v.value.Obj? then Merge(result, v.value) else result;
      if v.Some? && v.value.Obj? {
        ProjectIsPart(data, paths[0]);
        MergeIsLeast(result, v.value, data);
        MergeIsUpper(result, v.value, data);
      } else {
        PartReflexive(result);
      }
      var final := MergeAll(next, data, paths[1..]);
      MergeAllBounds(next, data, paths[1..]);
      PartTransitive(result, next, final);
      forall p | p in paths && Project(data, p).Some? && Project(data, p).value.Obj?
        ensures Part(Project(data, p).value, final) {
        if p == paths[0] { PartTransitive(v.value, next, final); } else { assert p in paths[1..]; }
      }
    }
  }

  lemma {:induction false} MergeAllIsLeast(result: Json, data: Json, paths: seq<seq<string>>, z: Json)
    requires data.Obj? && result.Obj? && z.Obj? && Part(result, z) && Covers(z, data, paths)
    ensures Part(MergeAll(result, data, paths), z)
    decreases paths
  {
    if paths != [] {
      var v := Project(data, paths[0]);
      assert paths[0] in paths;
      if v.Some? && v.value.Obj? { MergeIsLeast(result, v.value, z); }
      assert Covers(z, data, paths[1..]);
      MergeAllIsLeast(if v.Some? && v.value.Obj? then Merge(result, v.value) else result, data, paths[1..], z);
    }
  }

  lemma ShapeIsLeastUpperBound(data: Json, paths: seq<seq<string>>)
    requires data.Obj?
    ensures ShapeOf(data, paths).Obj? && Part(ShapeOf(data, paths), data) && Covers(ShapeOf(data, paths), data, paths)
    ensures forall z: Json :: z.Obj? && Covers(z, data, paths) ==> Part(ShapeOf(data, paths), z)
  {
    MergeAllBounds(Obj(map[]), data, paths);
    forall z: Json | z.Obj? && Covers(z, data, paths) ensures Part(ShapeOf(data, paths), z) {
      MergeAllIsLeast(Obj(map[]), data, paths, z);
    }
  }

  /** Only the set of allowed fields matters, not their order or repetition. */
  lemma ShapeIgnoresOrder(data: Json, paths: seq<seq<string>>, others: seq<seq<string>>)
    requires data.Obj? && forall p :: p in paths <==> p in others
    ensures ShapeOf(data, paths) == ShapeOf(data, others)
  {
    ShapeIsLeastUpperBound(data, paths);
    ShapeIsLeastUpperBound(data, others);
    assert Covers(ShapeOf(data, others), data, paths);
    PartAntisymmetric(ShapeOf(data, paths), ShapeOf(data, others));
  }

  /** A path found in x is found in any y between the projection and x, with at
      least the projection as its value. */
  lemma {:induction false} ProjectOfShaped(x: Json, y: Json, parts: seq<string>)
    requires Project(x, parts).Some? && Part(Project(x, parts).value, y) && Part(y, x)
    ensures Project(y, parts).Some? && Part(Project(x, parts).value, Project(y, parts).value)
    decreases parts
  {
    if parts != [] && !x.Null? {
      var b, rest := Project(x, parts).value, parts[1..];
      if parts[0] == EACH {
        forall i | 0 <= i < |x.items|
          ensures Project(x.items[i], rest).Some? ==> Project(y.items[i], rest).Some?
          ensures b.items[i].Null? || Part(b.items[i], OrNull(Project(y.items[i], rest)))
        {
          if Project(x.items[i], rest).Some? {
            if y.items[i].Null? {
              NullProjection(rest);
            } else if b.items[i].Null? {
              ProjectedNull(x.items[i], rest);
            } else {
              ProjectOfShaped(x.items[i], y.items[i], rest);
            }
          }
        }
      } else {
        ProjectOfShaped(x.fields[parts[0]], y.fields[parts[0]], rest);
      }
    }
  }

  lemma NullProjection(parts: seq<string>)
    ensures Project(Null, parts) == Some(Null)
  {
  }

  lemma ProjectedNull(x: Json, parts: seq<string>)
    requires Project(x, parts) == Some(Null)
    ensures x.Null?
  {
  }

  /** Shaping what is already shaped changes nothing. */
  lemma ShapeIdempotent(data: Json, paths: seq<seq<string>>)
    requires data.Obj?
    ensures ShapeOf(ShapeOf(data, paths), paths) == ShapeOf(data, paths)
  {
    var y := ShapeOf(data, paths);
    ShapeIsLeastUpperBound(data, paths);
    ShapeIsLeastUpperBound(y, paths);
    var z := ShapeOf(y, paths);
    forall p | p in paths && Project(data, p).Some? && Project(data, p).value.Obj?
      ensures Part(Project(data, p).value, z) {
      ProjectOfShaped(data, y, p);
      PartTransitive(Project(data, p).value, Project(y, p).value, z);
    }
    assert Covers(z, data, paths);
    PartAntisymmetric(y, z);
  }

  // ----- exactness, by concrete paths

  datatype Step = Key(name: string) | Index(i: nat)

  function At(v: Json, path: seq<Step>): Option<Json>
    decreases path
  {
    if path == [] then Some(v)
    else if path[0].Key? && v.Obj? && path[0].name in v.fields then At(v.fields[path[0].name], path[1..])
    else if path[0].Index? && v.Arr? && path[0].i < |v.items| then At(v.items[path[0].i], path[1..])
    else None
  }

  /** The path starts with the segments of an allowed field, "[]" standing for
      any index. */
  predicate Extends(path: seq<Step>, parts: seq<string>) {
    && |parts| <= |path|
    && forall n :: 0 <= n < |parts| ==>
      if parts[n] == EACH then path[n].Index? else path[n] == Key(parts[n])
  }

  lemma {:induction false} PartAt(b: Json, c: Json, path: seq<Step>)
    requires Part(b, c) && At(b, path).Some?
    ensures At(b, path).value.Null? || (At(c, path).Some? && Part(At(b, path).value, At(c, path).value))
    ensures b.Null? || At(c, path).Some?
    decreases path
  {
    if path != [] {
      if path[0].Key? {
        PartAt(b.fields[path[0].name], c.fields[path[0].name], path[1..]);
        if b.fields[path[0].name].Null? { assert path[1..] == []; }
      } else if b.items[path[0].i].Null? {
        assert path[1..] == [];
      } else {
        PartAt(b.items[path[0].i], c.items[path[0].i], path[1..]);
      }
    }
  }

  lemma {:induction false} ProjectOnlyExtends(x: Json, parts: seq<string>, path: seq<Step>)
    requires Project(x, parts).Some? && At(Project(x, parts).value, path).Some?
    requires At(Project(x, parts).value, path).value.Scalar?
    ensures Extends(path, parts)
    decreases parts
  {
    if parts != [] && !x.Null? {
      assert path != [];
      if parts[0] == EACH {
        var i := path[0].i;
        assert Project(x, parts).value.items[i] == OrNull(Project(x.items[i], parts[1..]));
        ProjectOnlyExtends(x.items[i], parts[1..], path[1..]);
      } else {
        ProjectOnlyExtends(x.fields[parts[0]], parts[1..], path[1..]);
      }
      forall n | 0 <= n < |parts| ensures if parts[n] == EACH then path[n].Index? else path[n] == Key(parts[n]) {
        if n > 0 { assert parts[n] == parts[1..][n - 1] && path[n] == path[1..][n - 1]; }
      }
    }
  }

  lemma {:induction false} ProjectFinds(x: Json, parts: seq<string>, path: seq<Step>)
    requires Extends(path, parts) && |path| == |parts| && At(x, path).Some?
    ensures Project(x, parts).Some? && At(Project(x, parts).value, path) == At(x, path)
    decreases parts
  {
    if parts != [] {
      assert Extends(path[1..], parts[1..]) by {
        forall n | 0 <= n < |parts[1..]|
          ensures if parts[1..][n] == EACH then path[1..][n].Index? else path[1..][n] == Key(parts[1..][n])
        {
          assert parts[1..][n] == parts[n + 1] && path[1..][n] == path[n + 1];
        }
      }
      if parts[0] == EACH {
        ProjectFinds(x.items[path[0].i], parts[1..], path[1..]);
      } else {
        ProjectFinds(x.fields[parts[0]], parts[1..], path[1..]);
      }
    }
  }

  lemma {:induction false} MergeScalarOrigin(a: Json, b: Json, path: seq<Step>)
    requires At(Merge(a, b), path).Some? && At(Merge(a, b), path).value.Scalar?
    ensures At(a, path) == At(Merge(a, b), path) || At(b, path) == At(Merge(a, b), path)
    decreases path
  {
    if path != [] {
      if a.Obj? && b.Obj? {
        var k := path[0].name;
        if k in a.fields && k in b.fields { MergeScalarOrigin(a.fields[k], b.fields[k], path[1..]); }
      } else if a.Arr? && b.Arr? {
        var i := path[0].i;
        if i < |a.items| && i < |b.items| && !a.items[i].Null? && !b.items[i].Null? {
          MergeScalarOrigin(a.items[i], b.items[i], path[1..]);
        }
      }
    }
  }

  ghost predicate Allowed(path: seq<Step>, paths: seq<seq<string>>) {
    exists p :: p in paths && Extends(path, p)
  }

  lemma {:induction false} MergeAllOrigin(result: Json, data: Json, paths: seq<seq<string>>, path: seq<Step>)
    requires At(MergeAll(result, data, paths), path).Some? && At(MergeAll(result, data, paths), path).value.Scalar?
    ensures At(result, path) == At(MergeAll(result, data, paths), path) || Allowed(path, paths)
    decreases paths
  {
    if paths != [] {
      var v := Project(data, paths[0]);
      var next := if v.Some? && v.value.Obj? then Merge(result, v.value) else result;
      MergeAllOrigin(next, data, paths[1..], path);
      if Allowed(path, paths[1..]) {
        var p :| p in paths[1..] && Extends(path, p);
        assert p in paths;
      } else if v.Some? && v.value.Obj? {
        MergeScalarOrigin(result, v.value, path);
        if At(result, path) != At(next, path) {
          ProjectOnlyExtends(data, paths[0], path);
          assert paths[0] in paths;
        }
      }
    }
  }

  /** Nothing leaks: a scalar of the output is the input's own scalar at the same
      path, and the path extends an allowed field. */
  lemma ShapeIsSound(data: Json, paths: seq<seq<string>>, path: seq<Step>)
    requires data.Obj?
    requires At(ShapeOf(data, paths), path).Some? && At(ShapeOf(data, paths), path).value.Scalar?
    ensures At(data, path) == At(ShapeOf(data, paths), path) && Allowed(path, paths)
  {
    ShapeIsLeastUpperBound(data, paths);
    PartAt(ShapeOf(data, paths), data, path);
    MergeAllOrigin(Obj(map[]), data, paths, path);
  }

  /** Nothing allowed is lost: what the input has under an allowed field is in the
      output, whole and at the same path. */
  lemma ShapeIsComplete(data: Json, paths: seq<seq<string>>, parts: seq<string>, path: seq<Step>)
    requires data.Obj? && parts in paths
    requires Extends(path, parts) && |path| == |parts| && At(data, path).Some?
    ensures At(ShapeOf(data, paths), path) == At(data, path)
  {
    var shaped := ShapeOf(data, paths);
    ShapeIsLeastUpperBound(data, paths);
    ProjectFinds(data, parts, path);
    var b := Project(data, parts).value;
    assert b.Obj? by { ProjectOfObject(data, parts); }
    PartAt(b, shaped, path);
    PartAt(shaped, data, path);
    var v := At(data, path).value;
    if !v.Null? { PartAntisymmetric(v, At(shaped, path).value); }
  }

  lemma ProjectOfObject(x: Json, parts: seq<string>)
    requires x.Obj? && Project(x, parts).Some?
    ensures Project(x, parts).value.Obj?
  {
  }

  // ----- field paths as text

  function Flushed(cur: string): seq<string> {
    if cur == "" then [] else [cur]
  }

  /** splitPath from the middle: `cur` is the segment being read. */
  function SplitFrom(s: string, cur: string): seq<string>
    decreases |s|
  {
    if s == "" then Flushed(cur)
    else if s[0] == '.' then Flushed(cur) + SplitFrom(s[1..], "")
    else if HasPrefix(s, EACH) then Flushed(cur) + [EACH] + SplitFrom(s[2..], "")
    else SplitFrom(s[1..], cur + [s[0]])
  }

  lemma SplitStep(path: string, i: nat, cur: string)
    requires i < |path|
    ensures SplitFrom(path[i..], cur) ==
      if path[i] == '.' then Flushed(cur) + SplitFrom(path[i + 1..], "")
      else if path[i] == '[' && i + 1 < |path| && path[i + 1] == ']' then
        Flushed(cur) + [EACH] + SplitFrom(path[i + 2..], "")
      else SplitFrom(path[i + 1..], cur + [path[i]])
  {
    var s := path[i..];
    assert s[0] == path[i] && s[1..] == path[i + 1..];
    if |s| >= 2 { assert s[..2] == [path[i], path[i + 1]] && s[2..] == path[i + 2..]; }
  }

  lemma Assoc(a: seq<string>, b: seq<string>, c: seq<string>)
    ensures a + (b + c) == (a + b) + c
  {
  }

  lemma SplitEnd(cur: string)
    ensures SplitFrom("", cur) == Flushed(cur)
  {
  }

  method SplitPath(path: string) returns (parts: seq<string>)
    ensures parts == SplitFrom(path, "")
  {
    hide SplitFrom, Flushed;
    parts := [];
    var cur := "";
    var i := 0;
    assert path[0..] == path;
    while i < |path|
      invariant 0 <= i <= |path|
      invariant parts + SplitFrom(path[i..], cur) == SplitFrom(path, "")
    {
      SplitStep(path, i, cur);
      if path[i] == '.' {
        Assoc(parts, Flushed(cur), SplitFrom(path[i + 1..], ""));
        parts, cur := parts + Flushed(cur), "";
      } else if path[i] == '[' && i + 1 < |path| && path[i + 1] == ']' {
        Assoc(parts, Flushed(cur) + [EACH], SplitFrom(path[i + 2..], ""));
        parts, cur := parts + (Flushed(cur) + [EACH]), "";
        i := i + 1;
      } else {
        cur := cur + [path[i]];
      }
      i := i + 1;
    }
    assert path[i..] == "";
    SplitEnd(cur);
    parts := parts + Flushed(cur);
  }

  /** A key that a field path can name. */
  predicate PathKey(k: string) {
    k != "" && '.' !in k && forall i :: 0 <= i < |k| - 1 ==> !(k[i] == '[' && k[i + 1] == ']')
  }

  /** The text of a path after its first segment. */
  function PathTail(parts: seq<string>): string {
    if parts == [] then "" else (if parts[0] == EACH then EACH else "." + parts[0]) + PathTail(parts[1..])
  }

  lemma {:induction false} SplitReadsKey(k: string, rest: string, cur: string)
    requires '.' !in k && forall i :: 0 <= i < |k| - 1 ==> !(k[i] == '[' && k[i + 1] == ']')
    requires rest == "" || rest[0] != ']'
    ensures SplitFrom(k + rest, cur) == SplitFrom(rest, cur + k)
    decreases |k|
  {
    if k == "" {
      assert k + rest == rest && cur + k == cur;
    } else {
      assert (k + rest)[1..] == k[1..] + rest && (k + rest)[0] == k[0];
      assert !HasPrefix(k + rest, EACH) by {
        if |k + rest| >= 2 { assert (k + rest)[..2][1] == (k + rest)[1]; }
      }
      SplitReadsKey(k[1..], rest, cur + [k[0]]);
      assert cur + [k[0]] + k[1..] == cur + k;
    }
  }

  lemma {:induction false} SplitTail(parts: seq<string>)
    requires forall i :: 0 <= i < |parts| ==> parts[i] == EACH || PathKey(parts[i])
    ensures SplitFrom(PathTail(parts), "") == parts
    ensures forall cur: string :: cur != "" ==> SplitFrom(PathTail(parts), cur) == [cur] + parts
  {
    if parts != [] {
      var tail := PathTail(parts[1..]);
      SplitTail(parts[1..]);
      assert parts == [parts[0]] + parts[1..];
      var s := PathTail(parts);
      if parts[0] == EACH {
        assert s[..2] == EACH && s[2..] == tail;
      } else {
        assert s[0] == '.' && s[1..] == parts[0] + tail;
        assert tail == "" || tail[0] != ']';
        SplitReadsKey(parts[0], tail, "");
        assert "" + parts[0] == parts[0];
      }
    }
  }

  /** The usual text of a path: keys separated by dots, "[]" glued to its array. */
  function PathText(parts: seq<string>): string {
    if parts == [] || parts[0] == EACH then PathTail(parts) else parts[0] + PathTail(parts[1..])
  }

  /** Every path over plain keys and "[]" splits back from its text. */
  lemma SplitPathRoundTrip(parts: seq<string>)
    requires forall i :: 0 <= i < |parts| ==> parts[i] == EACH || PathKey(parts[i])
    ensures SplitFrom(PathText(parts), "") == parts
  {
    if parts == [] || parts[0] == EACH {
      SplitTail(parts);
    } else {
      var tail := PathTail(parts[1..]);
      SplitTail(parts[1..]);
      assert tail == "" || tail[0] != ']';
      SplitReadsKey(parts[0], tail, "");
      assert "" + parts[0] == parts[0] && parts == [parts[0]] + parts[1..];
    }
  }
}
