/** closestAllowedOps of internal/server/server.go: suggestions for an unknown operation. */
module ClosestOps {
  import opened EditDistance
  import opened Sorting

  datatype Grant = Grant(workspace: string, role: string)

  datatype Scored = Scored(id: string, dist: nat, diff: nat)

  const MAX_OP_LENGTH := 128
  const MAX_SUGGESTIONS := 3

  /** The agent's grants in the workspace cover the operation (agentHasOp). */
  predicate HasOp(grants: seq<Grant>, roles: map<string, seq<string>>, workspace: string, op: string) {
    exists i :: 0 <= i < |grants| && GrantCovers(grants[i], roles, workspace, op)
  }

  predicate GrantCovers(g: Grant, roles: map<string, seq<string>>, workspace: string, op: string) {
    g.workspace == workspace && g.role in roles && op in roles[g.role]
  }

  function Longer(a: string, b: string): nat { if |a| < |b| then |b| else |a| }

  function Gap(a: string, b: string): nat { if |a| < |b| then |b| - |a| else |a| - |b| }

  /** Within half of the longer id's length. */
  predicate Near(opID: string, cand: string) {
    Lev(opID, cand) <= Longer(opID, cand) / 2
  }

  /** Twice the distance is at most the longer length. */
  lemma NearMeans(opID: string, cand: string)
    ensures Near(opID, cand) <==> 2 * Lev(opID, cand) <= |opID| || 2 * Lev(opID, cand) <= |cand|
  {
    hide Lev;
  }

  // ----- the candidates, while configuration and registry may be reloaded

  /** What each look-up answers: the roles when grant i is looked at, and the
      registered operations when operation k of its role is. */
  datatype Views = Views(roles: nat -> map<string, seq<string>>, registered: (nat, nat) -> set<string>)

  /** The operations met so far, and those registered when they were first met. */
  datatype Met = Met(seen: set<string>, live: set<string>)

  function MeetRole(ops: seq<string>, n: nat, i: nat, views: Views, m: Met): Met
    requires n <= |ops|
  {
    if n == 0 then m
    else
      var s, c := MeetRole(ops, n - 1, i, views, m), ops[n - 1];
      if c in s.seen then s else Met(s.seen + {c}, if c in views.registered(i, n - 1) then s.live + {c} else s.live)
  }

  function MeetGrants(grants: seq<Grant>, n: nat, views: Views, workspace: string): Met
    requires n <= |grants|
  {
    if n == 0 then Met({}, {})
    else
      var m, g := MeetGrants(grants, n - 1, views, workspace), grants[n - 1];
      if g.workspace != workspace || g.role !in views.roles(n - 1) then m
      else MeetRole(views.roles(n - 1)[g.role], |views.roles(n - 1)[g.role]|, n - 1, views, m)
  }

  function Live(grants: seq<Grant>, views: Views, workspace: string): set<string> {
    MeetGrants(grants, |grants|, views, workspace).live
  }

  lemma {:induction false} MeetRoleAll(ops: seq<string>, n: nat, i: nat, views: Views, m: Met, c: string)
    requires n <= |ops|
    ensures var r := MeetRole(ops, n, i, views, m);
      && (c in r.seen <==> c in m.seen || c in ops[..n])
      && (c in r.live ==> c in m.live || exists k: nat :: k < n && ops[k] == c && c in views.registered(i, k))
      && ((forall k: nat :: c in views.registered(i, k)) && (c in m.seen ==> c in m.live) && c in r.seen ==>
        c in r.live)
  {
    if n > 0 {
      MeetRoleAll(ops, n - 1, i, views, m, c);
      assert ops[..n] == ops[..n - 1] + [ops[n - 1]];
    }
  }

  ghost predicate MetAt(g: Grant, i: nat, k: nat, views: Views, workspace: string, c: string) {
    && g.workspace == workspace && g.role in views.roles(i)
    && k < |views.roles(i)[g.role]| && views.roles(i)[g.role][k] == c && c in views.registered(i, k)
  }

  /** Whatever is reloaded in between, a candidate was granted by the configuration
      read for some grant, and registered when it was looked up there. */
  lemma {:induction false} LiveWasGranted(grants: seq<Grant>, n: nat, views: Views, workspace: string, c: string)
    requires n <= |grants| && c in MeetGrants(grants, n, views, workspace).live
    ensures exists i: nat, k: nat :: i < n && MetAt(grants[i], i, k, views, workspace, c)
  {
    if n > 0 {
      var m, g := MeetGrants(grants, n - 1, views, workspace), grants[n - 1];
      if c in m.live {
        LiveWasGranted(grants, n - 1, views, workspace, c);
      } else {
        var ops := views.roles(n - 1)[g.role];
        MeetRoleAll(ops, |ops|, n - 1, views, m, c);
        assert ops[..|ops|] == ops;
        var k: nat :| k < |ops| && ops[k] == c && c in views.registered(n - 1, k);
        assert MetAt(g, n - 1, k, views, workspace, c);
      }
    }
  }

  /** Without a reload the candidates are the granted, registered operations. */
  lemma SteadyLive(grants: seq<Grant>, roles: map<string, seq<string>>, registered: set<string>, workspace: string,
      c: string)
    ensures var views := Views(_ => roles, (_, _) => registered);
      c in Live(grants, views, workspace) <==> HasOp(grants, roles, workspace, c) && c in registered
  {
    var views := Views(_ => roles, (_, _) => registered);
    SteadyMet(grants, |grants|, roles, registered, workspace, c);
    assert grants[..|grants|] == grants;
    if c in Live(grants, views, workspace) { LiveWasGranted(grants, |grants|, views, workspace, c); }
  }

  lemma {:induction false} SteadyMet(grants: seq<Grant>, n: nat, roles: map<string, seq<string>>,
      registered: set<string>, workspace: string, c: string)
    requires n <= |grants|
    ensures var m := MeetGrants(grants, n, Views(_ => roles, (_, _) => registered), workspace);
      && (c in m.seen <==> HasOp(grants[..n], roles, workspace, c))
      && (c in m.seen && c in registered ==> c in m.live)
  {
    if n > 0 {
      var views := Views(_ => roles, (_, _) => registered);
      SteadyMet(grants, n - 1, roles, registered, workspace, c);
      HasOpStep(grants, n - 1, roles, workspace, c);
      var g := grants[n - 1];
      if g.role in roles {
        var ops := roles[g.role];
        MeetRoleAll(ops, |ops|, n - 1, views, MeetGrants(grants, n - 1, views, workspace), c);
        assert ops[..|ops|] == ops;
      }
    }
  }

  // ----- the order of suggestions

  /** Smaller distance first, then closer length, then name. */
  predicate Before(x: Scored, y: Scored) {
    x.dist < y.dist ||
    (x.dist == y.dist && (x.diff < y.diff || (x.diff == y.diff && TextLess(x.id, y.id))))
  }

  lemma BeforeTotal(x: Scored, y: Scored)
    ensures Before(x, y) || Before(y, x) || x == y
    ensures !(Before(x, y) && Before(y, x)) && !Before(x, x)
  {
    TextTotal(x.id, y.id);
  }

  lemma BeforeTransitive(x: Scored, y: Scored, z: Scored)
    requires Before(x, y) && Before(y, z)
    ensures Before(x, z)
  {
    if TextLess(x.id, y.id) && TextLess(y.id, z.id) { TextTransitive(x.id, y.id, z.id); }
  }

  const BEFORE: (Scored, Scored) -> bool := (x, y) => Before(x, y)

  lemma BeforeIsOrder()
    ensures WeakOrder(BEFORE) && Total(BEFORE)
  {
    hide Before;
    forall x, y ensures !BEFORE(x, x) && (x != y ==> BEFORE(x, y) || BEFORE(y, x)) { BeforeTotal(x, y); }
    forall x, y, z | BEFORE(x, y) && BEFORE(y, z) ensures BEFORE(x, z) { BeforeTransitive(x, y, z); }
    forall x, y, z | BEFORE(x, z) ensures BEFORE(x, y) || BEFORE(y, z) {
      if y != x && !BEFORE(x, y) { BeforeTransitive(y, x, z); }
    }
  }

  ghost predicate Ordered(xs: seq<Scored>) {
    forall i, j :: 0 <= i < j < |xs| ==> Before(xs[i], xs[j])
  }

  /** sort.Slice with the order above. */
  method SortScored(xs: seq<Scored>) returns (ys: seq<Scored>)
    requires Distinct(xs)
    ensures Ordered(ys) && |ys| == |xs| && forall x :: x in ys <==> x in xs
  {
    hide Before;
    BeforeIsOrder();
    ys := Sort(xs, BEFORE);
    StrictlySorted(xs, ys, BEFORE);
    assert forall i, j :: 0 <= i < j < |ys| ==> BEFORE(ys[i], ys[j]);
  }

  // ----- the suggestions

  function Score(opID: string, cand: string): Scored {
    Scored(cand, Lev(opID, cand), Gap(opID, cand))
  }

  /** Which of two candidates comes first. */
  lemma BeforeMeans(opID: string, c: string, d: string)
    ensures Before(Score(opID, c), Score(opID, d)) <==>
      var x, y := Lev(opID, c), Lev(opID, d);
      var p, q := |c| - |opID|, |d| - |opID|;
      || x < y
      || (x == y && p * p < q * q)
      || (x == y && p * p == q * q && TextLess(c, d))
  {
    hide Lev, TextLess, Gap;
    SquareOrder(Gap(opID, c), Gap(opID, d));
    GapSquared(opID, c);
    GapSquared(opID, d);
  }

  lemma GapSquared(a: string, b: string)
    ensures Gap(a, b) * Gap(a, b) == (|b| - |a|) * (|b| - |a|)
  {
    var n := |b| - |a|;
    assert (-n) * (-n) == n * n;
  }

  lemma SquareOrder(x: nat, y: nat)
    ensures x < y <==> x * x < y * y
    ensures x == y <==> x * x == y * y
  {
    if x < y { assert x * x <= x * y < y * y; }
    if y < x { assert y * y <= y * x < x * x; }
  }

  /** found holds one score for every near candidate, and nothing else. */
  ghost predicate Collected(found: seq<Scored>, live: set<string>, opID: string) {
    && Distinct(found)
    && (forall s :: s in found ==> s == Score(opID, s.id) && s.id in live && Near(opID, s.id))
    && (forall c :: c in live && Near(opID, c) ==> Score(opID, c) in found)
  }

  /** The length test never skips a candidate the distance test would keep. */
  lemma LengthTestIsSafe(opID: string, cand: string)
    requires Gap(opID, cand) > Longer(opID, cand) / 2
    ensures Lev(opID, cand) > Longer(opID, cand) / 2
  {
    LevAtLeastGap(opID, cand);
  }

  method ConsiderRole(ops: seq<string>, i: nat, views: Views, opID: string, found0: seq<Scored>, m: Met)
    returns (found: seq<Scored>, met: Met)
    requires Collected(found0, m.live, opID) && m.live <= m.seen
    ensures met == MeetRole(ops, |ops|, i, views, m) && Collected(found, met.live, opID) && met.live <= met.seen
  {
    hide Lev;
    found, met := found0, m;
    for k := 0 to |ops|
      invariant met == MeetRole(ops, k, i, views, m) && Collected(found, met.live, opID) && met.live <= met.seen
    {
      var cand := ops[k];
      if cand in met.seen { continue; }
      met := met.(seen := met.seen + {cand});
      if cand !in views.registered(i, k) { continue; }
      met := met.(live := met.live + {cand});
      if Gap(opID, cand) > Longer(opID, cand) / 2 {
        LengthTestIsSafe(opID, cand);
        continue;
      }
      var d := EditDistance.EditDistance(opID, cand);
      if d > Longer(opID, cand) / 2 { continue; }
      found := found + [Scored(cand, d, Gap(opID, cand))];
    }
  }

  method Collect(grants: seq<Grant>, views: Views, workspace: string, opID: string) returns (found: seq<Scored>)
    ensures Collected(found, Live(grants, views, workspace), opID)
  {
    hide Lev;
    found := [];
    var met := Met({}, {});
    for i := 0 to |grants|
      invariant met == MeetGrants(grants, i, views, workspace) && Collected(found, met.live, opID) &&
        met.live <= met.seen
    {
      var g := grants[i];
      if g.workspace != workspace { continue; }
      var roles := views.roles(i);
      if g.role !in roles { continue; }
      found, met := ConsiderRole(roles[g.role], i, views, opID, found, met);
    }
  }

  /** The suggestions are the first three of all near candidates in the order above:
      best first, none else, and none left out while a worse one is named. */
  method ClosestAllowedOps(grants: seq<Grant>, views: Views, workspace: string, opID: string) returns (out: seq<string>)
    ensures |opID| > 128 ==> out == []
    ensures |out| <= 3
    ensures forall c :: c in out ==> c in Live(grants, views, workspace) && Near(opID, c)
    ensures forall i, j :: 0 <= i < j < |out| ==> Before(Score(opID, out[i]), Score(opID, out[j]))
    ensures |opID| <= 128 ==>
      forall c :: c in Live(grants, views, workspace) && Near(opID, c) && c !in out ==>
        |out| == 3 && forall i :: 0 <= i < |out| ==> Before(Score(opID, out[i]), Score(opID, c))
  {
    hide Lev, Before, Live, Near;
    out := [];
    if |opID| > MAX_OP_LENGTH { return; }
    ghost var live := Live(grants, views, workspace);
    var found := Collect(grants, views, workspace, opID);
    var sorted := SortScored(found);
    var best := if |sorted| > MAX_SUGGESTIONS then sorted[..MAX_SUGGESTIONS] else sorted;
    for i := 0 to |best|
      invariant |out| == i && forall j :: 0 <= j < i ==> out[j] == best[j].id
    {
      out := out + [best[i].id];
    }
    forall j | 0 <= j < |out| ensures best[j] == Score(opID, out[j]) && out[j] in live && Near(opID, out[j]) {
      assert best[j] == sorted[j] && sorted[j] in found;
    }
    forall c | c in live && Near(opID, c) && c !in out
      ensures |out| == MAX_SUGGESTIONS && forall i :: 0 <= i < |out| ==> Before(Score(opID, out[i]), Score(opID, c))
    {
      assert Score(opID, c) in sorted;
      var k :| 0 <= k < |sorted| && sorted[k] == Score(opID, c);
    }
  }

  lemma HasOpStep(grants: seq<Grant>, i: nat, roles: map<string, seq<string>>, workspace: string, c: string)
    requires i < |grants|
    ensures HasOp(grants[..i + 1], roles, workspace, c) <==>
      HasOp(grants[..i], roles, workspace, c) || GrantCovers(grants[i], roles, workspace, c)
  {
  }
}
