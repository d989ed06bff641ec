/** What an accepted statement can depend on: the walker's references against
    lexical scoping, and non-interference of the whole check. */
module TableAccess {
  import opened Strings
  import opened SqlTree
  import opened TableScope

  // ----- the walk succeeds exactly on shallow trees without denied functions

  function Max(a: nat, b: nat): nat { if a < b then b else a }

  /** Levels below v at which the walk still visits something. */
  function Height(v: Value): nat
    decreases v, 0
  {
    match v
    case Leaf(_) => 0
    case Indirect(e) => 1 + Height(e)
    case Group(items) => HeightAll(items)
    case RangeVar(_, _) => 0
    case FuncCall(_, fields) => HeightAll(fields)
    case SelectStmt(w, fields) => Max(if w.Some? then HeightCtes(w.value.defs, 1) else 0, HeightAll(fields))
    case OtherNode(_, w, fields) =>
      Max(if w.Some? then HeightCtes(w.value.defs, CTE_FIELD_DEPTH) else 0, HeightAll(fields))
  }

  function HeightAll(vs: seq<Value>): nat
    decreases vs, 0
  {
    if vs == [] then 0 else Max(1 + Height(vs[0]), HeightAll(vs[1..]))
  }

  function HeightCtes(defs: seq<Cte>, below: nat): nat
    decreases defs, 0
  {
    if defs == [] then 0 else Max(below + Height(defs[0].query), HeightCtes(defs[1..], below))
  }

  predicate CallsDenied(v: Value)
    decreases v, 0
  {
    match v
    case Leaf(_) => false
    case Indirect(e) => CallsDenied(e)
    case Group(items) => CallsDeniedAny(items)
    case RangeVar(_, _) => false
    case FuncCall(f, fields) => (f.Some? && FuncDenied(f.value)) || CallsDeniedAny(fields)
    case _ => (v.ctes.Some? && CallsDeniedCtes(v.ctes.value.defs)) || CallsDeniedAny(v.fields)
  }

  predicate CallsDeniedAny(vs: seq<Value>)
    decreases vs, 0
  {
    vs != [] && (CallsDenied(vs[0]) || CallsDeniedAny(vs[1..]))
  }

  predicate CallsDeniedCtes(defs: seq<Cte>)
    decreases defs, 0
  {
    defs != [] && (CallsDenied(defs[0].query) || CallsDeniedCtes(defs[1..]))
  }

  lemma {:induction false} WalkSucceeds(v: Value, depth: nat)
    ensures FirstError(v, depth).None? <==> depth + Height(v) <= 500 && !CallsDenied(v)
    decreases v, 0
  {
    match v
    case Leaf(_) =>
    case RangeVar(_, _) =>
    case Indirect(e) => WalkSucceeds(e, depth + 1);
    case Group(items) => WalkSucceedsAll(items, depth + 1);
    case FuncCall(_, fields) => WalkSucceedsAll(fields, depth + 1);
    case SelectStmt(w, fields) =>
      if w.Some? { WalkSucceedsCtes(w.value.defs, depth, 1); }
      WalkSucceedsAll(fields, depth + 1);
    case OtherNode(_, w, fields) =>
      if w.Some? { WalkSucceedsCtes(w.value.defs, depth, CTE_FIELD_DEPTH); }
      WalkSucceedsAll(fields, depth + 1);
  }

  lemma {:induction false} WalkSucceedsAll(vs: seq<Value>, depth: nat)
    requires depth > 0
    ensures FirstErrorAll(vs, depth).None? <==>
            (vs == [] || depth - 1 + HeightAll(vs) <= MAX_WALK_DEPTH) && !CallsDeniedAny(vs)
    decreases vs, 0
  {
    if vs != [] {
      WalkSucceeds(vs[0], depth);
      WalkSucceedsAll(vs[1..], depth);
    }
  }

  lemma {:induction false} WalkSucceedsCtes(defs: seq<Cte>, depth: nat, below: nat)
    ensures FirstErrorCtes(defs, depth + below).None? <==>
            (defs == [] || depth + HeightCtes(defs, below) <= MAX_WALK_DEPTH) && !CallsDeniedCtes(defs)
    decreases defs, 0
  {
    if defs != [] {
      WalkSucceeds(defs[0].query, depth + below);
      WalkSucceedsCtes(defs[1..], depth, below);
    }
  }

  // ----- the references are the lexically free ones

  /** WITH clauses on SELECT only: anywhere else the walker treats CTE names as tables. */
  predicate WithsOnSelects(v: Value)
    decreases v, 0
  {
    match v
    case Leaf(_) => true
    case Indirect(e) => WithsOnSelects(e)
    case Group(items) => WithsOnSelectsAll(items)
    case RangeVar(_, _) => true
    case FuncCall(_, fields) => WithsOnSelectsAll(fields)
    case SelectStmt(w, fields) => (w.Some? ==> WithsOnSelectsCtes(w.value.defs)) && WithsOnSelectsAll(fields)
    case OtherNode(_, w, fields) => w.None? && WithsOnSelectsAll(fields)
  }

  predicate WithsOnSelectsAll(vs: seq<Value>)
    decreases vs, 0
  {
    vs == [] || (WithsOnSelects(vs[0]) && WithsOnSelectsAll(vs[1..]))
  }

  predicate WithsOnSelectsCtes(defs: seq<Cte>)
    decreases defs, 0
  {
    defs == [] || (WithsOnSelects(defs[0].query) && WithsOnSelectsCtes(defs[1..]))
  }

  /** No unqualified reference equals a CTE in scope up to letter case only. */
  predicate CaseExact(v: Value, scope: set<string>)
    decreases v, 0
  {
    match v
    case Leaf(_) => true
    case Indirect(e) => CaseExact(e, scope)
    case Group(items) => CaseExactAll(items, scope)
    case RangeVar(schema, rel) => schema == "" && Lower(rel) in FoldedNames(scope) ==> rel in scope
    case FuncCall(_, fields) => CaseExactAll(fields, scope)
    case _ =>
      if v.ctes.None? then CaseExactAll(v.fields, scope)
      else
        var w := v.ctes.value;
        var inner := scope + Names(w.defs);
        CaseExactCtes(w.defs, if w.recursive then inner else scope, w.recursive) && CaseExactAll(v.fields, inner)
  }

  predicate CaseExactAll(vs: seq<Value>, scope: set<string>)
    decreases vs, 0
  {
    vs == [] || (CaseExact(vs[0], scope) && CaseExactAll(vs[1..], scope))
  }

  predicate CaseExactCtes(defs: seq<Cte>, scope: set<string>, recursive: bool)
    decreases defs, 0
  {
    defs == [] ||
    (CaseExact(defs[0].query, scope) &&
     CaseExactCtes(defs[1..], if recursive then scope else scope + {defs[0].name}, recursive))
  }

  function FoldedRefs(rs: seq<TableRef>): (f: seq<TableRef>)
    ensures |f| == |rs|
  {
    seq(|rs|, i requires 0 <= i < |rs| => Folded(rs[i]))
  }

  /** `walked` is what the walker records where the lexically free references are
      `free`: all of them, folded, when `exact` holds, and fewer otherwise. */
  ghost predicate Records(walked: seq<TableRef>, free: seq<TableRef>, exact: bool) {
    && (exact ==> walked == FoldedRefs(free))
    && (!exact ==> |walked| < |free|)
  }

  lemma RecordsConcat(w1: seq<TableRef>, f1: seq<TableRef>, e1: bool, w2: seq<TableRef>, f2: seq<TableRef>, e2: bool)
    requires Records(w1, f1, e1) && Records(w2, f2, e2)
    ensures Records(w1 + w2, f1 + f2, e1 && e2)
  {
  }

  lemma FoldedNamesUnion(a: set<string>, b: set<string>)
    ensures FoldedNames(a + b) == FoldedNames(a) + FoldedNames(b)
  {
  }

  /** The walker's list is the list of lexically free references exactly when no
      reference differs from a CTE in scope by letter case alone. */
  lemma {:induction false} WalkRecordsFreeRefs(v: Value, scope: set<string>)
    requires WithsOnSelects(v)
    ensures Records(WalkRefs(v, FoldedNames(scope)), FreeRefs(v, scope), CaseExact(v, scope))
    ensures WalkRefs(v, FoldedNames(scope)) == FoldedRefs(FreeRefs(v, scope)) <==> CaseExact(v, scope)
    decreases v, 0
  {
    match v
    case Leaf(_) =>
    case RangeVar(schema, rel) =>
      if rel in scope { assert Lower(rel) in FoldedNames(scope); }
    case Indirect(e) => WalkRecordsFreeRefs(e, scope);
    case Group(items) => WalkRecordsFreeRefsAll(items, scope);
    case FuncCall(_, fields) => WalkRecordsFreeRefsAll(fields, scope);
    case OtherNode(_, w, fields) =>
      WalkRecordsFreeRefsAll(fields, scope);
      assert WalkRefs(v, FoldedNames(scope)) == WalkRefsAll(fields, FoldedNames(scope));
    case SelectStmt(w, fields) =>
      if w.None? {
        WalkRecordsFreeRefsAll(fields, scope);
      } else {
        var defs, rec := w.value.defs, w.value.recursive;
        var inner := scope + Names(defs);
        FoldedNamesUnion(scope, Names(defs));
        var outer := if rec then inner else scope;
        WalkRecordsFreeRefsCtes(defs, outer, rec);
        WalkRecordsFreeRefsAll(fields, inner);
        RecordsConcat(WalkRefsCtes(defs, FoldedNames(outer), rec),
                      FreeRefsCtes(defs, outer, rec), CaseExactCtes(defs, outer, rec),
                      WalkRefsAll(fields, FoldedNames(inner)), FreeRefsAll(fields, inner), CaseExactAll(fields, inner));
      }
  }

  lemma {:induction false} WalkRecordsFreeRefsAll(vs: seq<Value>, scope: set<string>)
    requires WithsOnSelectsAll(vs)
    ensures Records(WalkRefsAll(vs, FoldedNames(scope)), FreeRefsAll(vs, scope), CaseExactAll(vs, scope))
    decreases vs, 0
  {
    if vs != [] {
      var names := FoldedNames(scope);
      WalkRecordsFreeRefs(vs[0], scope);
      WalkRecordsFreeRefsAll(vs[1..], scope);
      RecordsConcat(WalkRefs(vs[0], names), FreeRefs(vs[0], scope), CaseExact(vs[0], scope),
                    WalkRefsAll(vs[1..], names), FreeRefsAll(vs[1..], scope), CaseExactAll(vs[1..], scope));
    }
  }

  lemma {:induction false} WalkRecordsFreeRefsCtes(defs: seq<Cte>, scope: set<string>, recursive: bool)
    requires WithsOnSelectsCtes(defs)
    ensures Records(WalkRefsCtes(defs, FoldedNames(scope), recursive), FreeRefsCtes(defs, scope, recursive),
                    CaseExactCtes(defs, scope, recursive))
    decreases defs, 0
  {
    if defs != [] {
      var names := FoldedNames(scope);
      var next := if recursive then scope else scope + {defs[0].name};
      FoldedNamesUnion(scope, {defs[0].name});
      assert FoldedNames({defs[0].name}) == {Lower(defs[0].name)};
      WalkRecordsFreeRefs(defs[0].query, scope);
      WalkRecordsFreeRefsCtes(defs[1..], next, recursive);
      RecordsConcat(WalkRefs(defs[0].query, names), FreeRefs(defs[0].query, scope), CaseExact(defs[0].query, scope),
                    WalkRefsCtes(defs[1..], FoldedNames(next), recursive), FreeRefsCtes(defs[1..], next, recursive),
                    CaseExactCtes(defs[1..], next, recursive));
    }
  }

  // ----- the allow-list

  /** One entry of pg_allowed_tables, already trimmed and lower-cased. */
  predicate EntryAdmits(a: string, r: TableRef) {
    && a != ""
    && (|| a == "*" || a == "*.*"
        || (if HasSuffix(a, ".*") then r.schema == a[..|a| - 2]
            else if '.' in a then a == r.schema + "." + r.name
            else a == r.name && (r.schema == "" || r.schema == "public"))
        || (r.schema == "" && HasPrefix(r.name, "pg_") && (a == "pg_catalog.*" || a == "pg_catalog." + r.name)))
  }

  predicate Admitted(r: TableRef, allowed: seq<string>) {
    exists a :: a in allowed && EntryAdmits(Lower(TrimSpace(a)), r)
  }

  datatype Verdict = Accepted | ParseError | Violation(err: WalkError) | Forbidden(ref: TableRef)

  predicate InScope(stmt: Value, allowed: seq<string>) {
    && FirstError(stmt, 0).None?
    && forall r :: r in WalkRefs(stmt, {}) ==> Admitted(r, allowed)
  }

  lemma {:induction false} StatementRefs(stmts: seq<Value>, r: TableRef)
    ensures r in WalkRefsAll(stmts, {}) <==> exists i :: 0 <= i < |stmts| && r in WalkRefs(stmts[i], {})
  {
    if stmts != [] {
      StatementRefs(stmts[1..], r);
      if r in WalkRefsAll(stmts[1..], {}) {
        var i :| 0 <= i < |stmts[1..]| && r in WalkRefs(stmts[1..][i], {});
        assert r in WalkRefs(stmts[i + 1], {});
      }
      if i :| 0 < i < |stmts| && r in WalkRefs(stmts[i], {}) {
        assert r in WalkRefs(stmts[1..][i - 1], {});
      }
    }
  }

  ghost predicate FirstFailing(stmts: seq<Value>, i: nat) {
    i < |stmts| && FirstError(stmts[i], 0).Some? && forall k :: 0 <= k < i ==> FirstError(stmts[k], 0).None?
  }

  ghost predicate FirstForbidden(refs: seq<TableRef>, allowed: seq<string>, i: nat) {
    i < |refs| && !Admitted(refs[i], allowed) && forall k :: 0 <= k < i ==> Admitted(refs[k], allowed)
  }

  /** The walking loop of checkTableScope. */
  method CollectRefs(stmts: seq<Value>) returns (refs: seq<TableRef>, err: Option<WalkError>)
    ensures err.None? ==> refs == WalkRefsAll(stmts, {}) && forall i :: 0 <= i < |stmts| ==>
      FirstError(stmts[i], 0).None?
    ensures err.Some? ==> exists i :: 0 <= i < |stmts| && FirstFailing(stmts, i) && FirstError(stmts[i], 0) == err
  {
    refs, err := [], None;
    for i := 0 to |stmts|
      invariant err == None && forall k :: 0 <= k < i ==> FirstError(stmts[k], 0).None?
      invariant refs + WalkRefsAll(stmts[i..], {}) == WalkRefsAll(stmts, {})
    {
      var walker := new TableWalker();
      var scope := new Scope({});
      walker.WalkValue(stmts[i], scope, 0);
      assert stmts[i..][0] == stmts[i] && stmts[i..][1..] == stmts[i + 1..];
      refs, err := refs + walker.refs, walker.err;
      if err.Some? { return; }
    }
  }

  /** checkTableScope on the parser's answer (None: the text does not parse). */
  method CheckTableScope(parsed: Option<seq<Value>>, allowed: seq<string>) returns (verdict: Verdict)
    ensures verdict.ParseError? <==> parsed.None?
    ensures verdict.Accepted? <==>
      parsed.Some? && forall i :: 0 <= i < |parsed.value| ==> InScope(parsed.value[i], allowed)
    ensures verdict.Violation? ==>
      exists i :: 0 <= i < |parsed.value| && FirstFailing(parsed.value, i) &&
        FirstError(parsed.value[i], 0) == Some(verdict.err)
    ensures verdict.Forbidden? ==>
      && (forall i :: 0 <= i < |parsed.value| ==> FirstError(parsed.value[i], 0).None?)
      && var refs := WalkRefsAll(parsed.value, {});
         exists k: nat :: FirstForbidden(refs, allowed, k) && refs[k] == verdict.ref
  {
    if parsed.None? { return ParseError; }
    var refs, err := CollectRefs(parsed.value);
    if err.Some? { return Violation(err.value); }
    for i := 0 to |refs|
      invariant forall k :: 0 <= k < i ==> Admitted(refs[k], allowed)
    {
      if !Admitted(refs[i], allowed) {
        StatementRefs(parsed.value, refs[i]);
        return Forbidden(refs[i]);
      }
    }
    forall i, r | 0 <= i < |parsed.value| && r in WalkRefs(parsed.value[i], {}) ensures Admitted(r, allowed) {
      StatementRefs(parsed.value, r);
    }
    return Accepted;
  }

  // ----- non-interference

  ghost predicate AgreeOnAdmitted<D(!new)>(db1: Database<D>, db2: Database<D>, allowed: seq<string>) {
    forall t: TableRef :: Admitted(Folded(t), allowed) ==> db1(t) == db2(t)
  }

  /** The allow-list admits every one of the references. */
  predicate AllAdmitted(rs: seq<TableRef>, allowed: seq<string>) {
    forall r :: r in rs ==> Admitted(Folded(r), allowed)
  }

  lemma {:induction false} SameValue<D(!new)>(v: Value, scope: map<string, D>, allowed: seq<string>,
      db1: Database<D>, db2: Database<D>, alg: Algebra<D>, rounds: nat)
    requires AgreeOnAdmitted(db1, db2, allowed) && !CallsDenied(v)
    requires AllAdmitted(FreeRefs(v, scope.Keys), allowed)
    ensures Eval(v, db1, scope, alg, FuncDenied, rounds) == Eval(v, db2, scope, alg, FuncDenied, rounds)
    decreases v, 0
  {
    match v
    case Leaf(_) =>
    case Indirect(e) => SameValue(e, scope, allowed, db1, db2, alg, rounds);
    case Group(items) => SameValues(items, scope, allowed, db1, db2, alg, rounds);
    case RangeVar(schema, rel) =>
    case FuncCall(_, fields) => SameValues(fields, scope, allowed, db1, db2, alg, rounds);
    case _ =>
      if v.ctes.None? {
        SameValues(v.fields, scope, allowed, db1, db2, alg, rounds);
      } else {
        var w := v.ctes.value;
        var names := scope.Keys + Names(w.defs);
        assert FreeRefs(v, scope.Keys) ==
          FreeRefsCtes(w.defs, if w.recursive then names else scope.Keys, w.recursive) + FreeRefsAll(v.fields, names);
        SameScope(w, scope, allowed, db1, db2, alg, rounds);
        var inner := Bind(w, db1, scope, alg, FuncDenied, rounds);
        SameQueries(w.defs, if w.recursive then inner else scope, w.recursive, allowed, db1, db2, alg, rounds);
        SameValues(v.fields, inner, allowed, db1, db2, alg, rounds);
      }
  }

  lemma {:induction false} SameValues<D(!new)>(vs: seq<Value>, scope: map<string, D>, allowed: seq<string>,
      db1: Database<D>, db2: Database<D>, alg: Algebra<D>, rounds: nat)
    requires AgreeOnAdmitted(db1, db2, allowed) && !CallsDeniedAny(vs)
    requires AllAdmitted(FreeRefsAll(vs, scope.Keys), allowed)
    ensures EvalAll(vs, db1, scope, alg, FuncDenied, rounds) == EvalAll(vs, db2, scope, alg, FuncDenied, rounds)
    decreases vs, 0
  {
    if vs != [] {
      SameValue(vs[0], scope, allowed, db1, db2, alg, rounds);
      SameValues(vs[1..], scope, allowed, db1, db2, alg, rounds);
    }
  }

  lemma {:induction false} SameQueries<D(!new)>(defs: seq<Cte>, scope: map<string, D>, recursive: bool,
      allowed: seq<string>,
      db1: Database<D>, db2: Database<D>, alg: Algebra<D>, rounds: nat)
    requires AgreeOnAdmitted(db1, db2, allowed) && !CallsDeniedCtes(defs)
    requires AllAdmitted(FreeRefsCtes(defs, scope.Keys, recursive), allowed)
    ensures Queries(defs, db1, scope, recursive, alg, FuncDenied, rounds) ==
      Queries(defs, db2, scope, recursive, alg, FuncDenied, rounds)
    decreases defs, 0
  {
    if defs != [] {
      SameValue(defs[0].query, scope, allowed, db1, db2, alg, rounds);
      var next := scope[defs[0].name := Eval(defs[0].query, db1, scope, alg, FuncDenied, rounds)];
      assert next.Keys == scope.Keys + {defs[0].name};
      SameQueries(defs[1..], if recursive then scope else next, recursive, allowed, db1, db2, alg, rounds);
    }
  }

  /** Both databases bind a WITH clause to the same results. */
  lemma {:induction false} SameScope<D(!new)>(w: WithClause, scope: map<string, D>, allowed: seq<string>,
      db1: Database<D>, db2: Database<D>, alg: Algebra<D>, rounds: nat)
    requires AgreeOnAdmitted(db1, db2, allowed) && !CallsDeniedCtes(w.defs)
    requires var names := if w.recursive then scope.Keys + Names(w.defs) else scope.Keys;
      AllAdmitted(FreeRefsCtes(w.defs, names, w.recursive), allowed)
    ensures Bind(w, db1, scope, alg, FuncDenied, rounds) == Bind(w, db2, scope, alg, FuncDenied, rounds)
    ensures Bind(w, db1, scope, alg, FuncDenied, rounds).Keys == scope.Keys + Names(w.defs)
    decreases w, 0
  {
    BindKeys(w, db1, scope, alg, rounds);
    if w.recursive {
      var start := scope + map n | n in Names(w.defs) :: alg.empty;
      assert start.Keys == scope.Keys + Names(w.defs);
      SameIterate(w.defs, start, allowed, db1, db2, alg, rounds, rounds);
    } else {
      SameInOrder(w.defs, scope, allowed, db1, db2, alg, rounds);
    }
  }

  lemma {:induction false} SameInOrder<D(!new)>(defs: seq<Cte>, scope: map<string, D>, allowed: seq<string>,
      db1: Database<D>, db2: Database<D>, alg: Algebra<D>, rounds: nat)
    requires AgreeOnAdmitted(db1, db2, allowed) && !CallsDeniedCtes(defs)
    requires AllAdmitted(FreeRefsCtes(defs, scope.Keys, false), allowed)
    ensures BindInOrder(defs, db1, scope, alg, FuncDenied, rounds) ==
      BindInOrder(defs, db2, scope, alg, FuncDenied, rounds)
    decreases defs, 0
  {
    if defs != [] {
      SameValue(defs[0].query, scope, allowed, db1, db2, alg, rounds);
      var next := scope[defs[0].name := Eval(defs[0].query, db1, scope, alg, FuncDenied, rounds)];
      assert next.Keys == scope.Keys + {defs[0].name};
      SameInOrder(defs[1..], next, allowed, db1, db2, alg, rounds);
    }
  }

  lemma {:induction false} SameIterate<D(!new)>(defs: seq<Cte>, scope: map<string, D>, allowed: seq<string>,
      db1: Database<D>, db2: Database<D>, alg: Algebra<D>, rounds: nat, left: nat)
    requires AgreeOnAdmitted(db1, db2, allowed) && !CallsDeniedCtes(defs) && Names(defs) <= scope.Keys
    requires AllAdmitted(FreeRefsCtes(defs, scope.Keys, true), allowed)
    ensures Iterate(defs, db1, scope, alg, FuncDenied, rounds, left) ==
      Iterate(defs, db2, scope, alg, FuncDenied, rounds, left)
    decreases defs, 1, left
  {
    if left != 0 && !alg.done(scope) {
      SameRound(defs, scope, allowed, db1, db2, alg, rounds);
      var next := scope + Round(defs, db1, scope, alg, FuncDenied, rounds);
      assert next.Keys == scope.Keys;
      SameIterate(defs, next, allowed, db1, db2, alg, rounds, left - 1);
    }
  }

  lemma {:induction false} SameRound<D(!new)>(defs: seq<Cte>, scope: map<string, D>, allowed: seq<string>,
      db1: Database<D>, db2: Database<D>, alg: Algebra<D>, rounds: nat)
    requires AgreeOnAdmitted(db1, db2, allowed) && !CallsDeniedCtes(defs)
    requires AllAdmitted(FreeRefsCtes(defs, scope.Keys, true), allowed)
    ensures Round(defs, db1, scope, alg, FuncDenied, rounds) == Round(defs, db2, scope, alg, FuncDenied, rounds)
    decreases defs, 0
  {
    if defs != [] {
      SameValue(defs[0].query, scope, allowed, db1, db2, alg, rounds);
      SameRound(defs[1..], scope, allowed, db1, db2, alg, rounds);
    }
  }

  /** A WITH clause brings exactly its names into scope. */
  lemma BindKeys<D>(w: WithClause, db: Database<D>, scope: map<string, D>, alg: Algebra<D>, rounds: nat)
    ensures Bind(w, db, scope, alg, FuncDenied, rounds).Keys == scope.Keys + Names(w.defs)
  {
    if w.recursive {
      var start := scope + map n | n in Names(w.defs) :: alg.empty;
      assert start.Keys == scope.Keys + Names(w.defs);
      IterateKeys(w.defs, db, start, alg, rounds, rounds);
    } else {
      BindInOrderKeys(w.defs, db, scope, alg, rounds);
    }
  }

  lemma {:induction false} BindInOrderKeys<D>(defs: seq<Cte>, db: Database<D>, scope: map<string, D>, alg: Algebra<D>,
      rounds: nat)
    ensures BindInOrder(defs, db, scope, alg, FuncDenied, rounds).Keys == scope.Keys + Names(defs)
  {
    if defs != [] {
      NamesCons(defs);
      var next := scope[defs[0].name := Eval(defs[0].query, db, scope, alg, FuncDenied, rounds)];
      assert next.Keys == scope.Keys + {defs[0].name};
      BindInOrderKeys(defs[1..], db, next, alg, rounds);
    }
  }

  lemma {:induction false} IterateKeys<D>(defs: seq<Cte>, db: Database<D>, scope: map<string, D>, alg: Algebra<D>,
      rounds: nat, left: nat)
    requires Names(defs) <= scope.Keys
    ensures Iterate(defs, db, scope, alg, FuncDenied, rounds, left).Keys == scope.Keys
    decreases left
  {
    if left != 0 && !alg.done(scope) {
      var next := scope + Round(defs, db, scope, alg, FuncDenied, rounds);
      assert next.Keys == scope.Keys;
      IterateKeys(defs, db, next, alg, rounds, left - 1);
    }
  }

  /** A statement whose lexically free references are all admitted cannot tell apart
      two databases that agree on the admitted tables, whatever its operators mean
      and however many rounds its recursive CTEs run. */
  lemma FreeRefsBound<D(!new)>(stmt: Value, allowed: seq<string>, db1: Database<D>, db2: Database<D>,
      alg: Algebra<D>, rounds: nat)
    requires !CallsDenied(stmt) && AllAdmitted(FreeRefs(stmt, {}), allowed)
    requires AgreeOnAdmitted(db1, db2, allowed)
    ensures Eval(stmt, db1, map[], alg, FuncDenied, rounds) == Eval(stmt, db2, map[], alg, FuncDenied, rounds)
  {
    var empty: map<string, D> := map[];
    assert empty.Keys == {};
    SameValue(stmt, empty, allowed, db1, db2, alg, rounds);
  }

  // ----- every free reference can matter

  function Any(bs: seq<bool>): bool {
    bs != [] && (bs[0] || Any(bs[1..]))
  }

  /** Everything is true when anything it is made of is. */
  ghost function AnyTrue(): Algebra<bool> {
    Algebra(_ => false, bs => Any(bs), (_, bs) => Any(bs), (_, bs, _) => Any(bs),
            (ws, bs) => Any(ws) || Any(bs), (_, ws, bs) => Any(ws) || Any(bs), false, (a, b) => a || b, _ => true)
  }

  ghost function Only(r: TableRef): Database<bool> { t => t == r }

  lemma {:induction false} FreeRefShows(v: Value, scope: map<string, bool>, r: TableRef)
    requires r in FreeRefs(v, scope.Keys)
    ensures Eval(v, Only(r), scope, AnyTrue(), FuncDenied, 0)
    decreases v, 0
  {
    match v
    case Leaf(_) =>
    case Indirect(e) => FreeRefShows(e, scope, r);
    case Group(items) => FreeRefsShow(items, scope, r);
    case RangeVar(schema, rel) =>
    case FuncCall(_, fields) => FreeRefsShow(fields, scope, r);
    case _ =>
      if v.ctes.None? {
        FreeRefsShow(v.fields, scope, r);
      } else {
        var w := v.ctes.value;
        var inner := Bind(w, Only(r), scope, AnyTrue(), FuncDenied, 0);
        BindKeys(w, Only(r), scope, AnyTrue(), 0);
        var outer := if w.recursive then inner else scope;
        assert FreeRefs(v, scope.Keys) ==
          FreeRefsCtes(w.defs, outer.Keys, w.recursive) + FreeRefsAll(v.fields, inner.Keys);
        if r in FreeRefsAll(v.fields, inner.Keys) {
          FreeRefsShow(v.fields, inner, r);
        } else {
          FreeRefsCtesShow(w.defs, outer, w.recursive, r);
        }
      }
  }

  lemma {:induction false} FreeRefsShow(vs: seq<Value>, scope: map<string, bool>, r: TableRef)
    requires r in FreeRefsAll(vs, scope.Keys)
    ensures Any(EvalAll(vs, Only(r), scope, AnyTrue(), FuncDenied, 0))
    decreases vs, 0
  {
    if r in FreeRefs(vs[0], scope.Keys) { FreeRefShows(vs[0], scope, r); } else { FreeRefsShow(vs[1..], scope, r); }
  }

  lemma {:induction false} FreeRefsCtesShow(defs: seq<Cte>, scope: map<string, bool>, recursive: bool, r: TableRef)
    requires r in FreeRefsCtes(defs, scope.Keys, recursive)
    ensures Any(Queries(defs, Only(r), scope, recursive, AnyTrue(), FuncDenied, 0))
    decreases defs, 0
  {
    if r in FreeRefs(defs[0].query, scope.Keys) {
      FreeRefShows(defs[0].query, scope, r);
    } else {
      var next := scope[defs[0].name := Eval(defs[0].query, Only(r), scope, AnyTrue(), FuncDenied, 0)];
      assert next.Keys == scope.Keys + {defs[0].name};
      FreeRefsCtesShow(defs[1..], if recursive then scope else next, recursive, r);
    }
  }

  ghost predicate AllFalse(scope: map<string, bool>) { forall n :: n in scope ==> !scope[n] }

  ghost function Empty(): Database<bool> { _ => false }

  lemma {:induction false} EmptyIsFalse(v: Value, scope: map<string, bool>)
    requires AllFalse(scope)
    ensures !Eval(v, Empty(), scope, AnyTrue(), FuncDenied, 0)
    decreases v, 0
  {
    match v
    case Leaf(_) =>
    case Indirect(e) => EmptyIsFalse(e, scope);
    case Group(items) => EmptyAllFalse(items, scope);
    case RangeVar(schema, rel) =>
    case FuncCall(_, fields) => EmptyAllFalse(fields, scope);
    case _ =>
      if v.ctes.None? {
        EmptyAllFalse(v.fields, scope);
      } else {
        var w := v.ctes.value;
        var inner := Bind(w, Empty(), scope, AnyTrue(), FuncDenied, 0);
        EmptyBindFalse(w, scope);
        EmptyQueriesFalse(w.defs, if w.recursive then inner else scope, w.recursive);
        EmptyAllFalse(v.fields, inner);
      }
  }

  lemma {:induction false} EmptyAllFalse(vs: seq<Value>, scope: map<string, bool>)
    requires AllFalse(scope)
    ensures !Any(EvalAll(vs, Empty(), scope, AnyTrue(), FuncDenied, 0))
    decreases vs, 0
  {
    if vs != [] {
      EmptyIsFalse(vs[0], scope);
      EmptyAllFalse(vs[1..], scope);
    }
  }

  lemma {:induction false} EmptyQueriesFalse(defs: seq<Cte>, scope: map<string, bool>, recursive: bool)
    requires AllFalse(scope)
    ensures !Any(Queries(defs, Empty(), scope, recursive, AnyTrue(), FuncDenied, 0))
    decreases defs, 0
  {
    if defs != [] {
      EmptyIsFalse(defs[0].query, scope);
      EmptyQueriesFalse(defs[1..], if recursive then scope else scope[defs[0].name := false], recursive);
    }
  }

  lemma {:induction false} EmptyBindFalse(w: WithClause, scope: map<string, bool>)
    requires AllFalse(scope)
    ensures AllFalse(Bind(w, Empty(), scope, AnyTrue(), FuncDenied, 0))
    decreases w, 0
  {
    if w.recursive {
      var start := scope + map n | n in Names(w.defs) :: false;
      assert start == Bind(w, Empty(), scope, AnyTrue(), FuncDenied, 0);
    } else {
      EmptyBindsFalse(w.defs, scope);
    }
  }

  lemma {:induction false} EmptyBindsFalse(defs: seq<Cte>, scope: map<string, bool>)
    requires AllFalse(scope)
    ensures AllFalse(BindInOrder(defs, Empty(), scope, AnyTrue(), FuncDenied, 0))
    decreases defs, 0
  {
    if defs != [] {
      EmptyIsFalse(defs[0].query, scope);
      EmptyBindsFalse(defs[1..], scope[defs[0].name := false]);
    }
  }

  /** No two databases that agree on the admitted tables give different results. */
  ghost predicate NonInterfering<D(!new)>(stmt: Value, allowed: seq<string>) {
    forall db1: Database<D>, db2: Database<D>, alg: Algebra<D>, rounds: nat ::
      AgreeOnAdmitted(db1, db2, allowed) ==>
        Eval(stmt, db1, map[], alg, FuncDenied, rounds) == Eval(stmt, db2, map[], alg, FuncDenied, rounds)
  }

  /** An accepted statement is non-interfering exactly when the allow-list admits
      every one of its lexically free references: then over every domain, and
      otherwise already over the truth values not. */
  lemma NonInterference<D(!new)>(stmt: Value, allowed: seq<string>)
    requires InScope(stmt, allowed)
    ensures AllAdmitted(FreeRefs(stmt, {}), allowed) ==> NonInterfering<D>(stmt, allowed)
    ensures NonInterfering<bool>(stmt, allowed) <==> AllAdmitted(FreeRefs(stmt, {}), allowed)
  {
    WalkSucceeds(stmt, 0);
    if AllAdmitted(FreeRefs(stmt, {}), allowed) {
      Bounded<D>(stmt, allowed);
      Bounded<bool>(stmt, allowed);
    } else {
      var r :| r in FreeRefs(stmt, {}) && !Admitted(Folded(r), allowed);
      var empty: map<string, bool> := map[];
      assert empty.Keys == {};
      FreeRefShows(stmt, empty, r);
      EmptyIsFalse(stmt, empty);
      assert AgreeOnAdmitted(Only(r), Empty(), allowed);
    }
  }

  lemma Bounded<D(!new)>(stmt: Value, allowed: seq<string>)
    requires !CallsDenied(stmt) && AllAdmitted(FreeRefs(stmt, {}), allowed)
    ensures NonInterfering<D>(stmt, allowed)
  {
    forall db1: Database<D>, db2: Database<D>, alg: Algebra<D>, rounds: nat | AgreeOnAdmitted(db1, db2, allowed)
      ensures Eval(stmt, db1, map[], alg, FuncDenied, rounds) == Eval(stmt, db2, map[], alg, FuncDenied, rounds)
    {
      FreeRefsBound(stmt, allowed, db1, db2, alg, rounds);
    }
  }

  // ----- when an accepted statement meets the condition

  /** Whatever is free is walked, once no reference differs from a CTE in scope by
      letter case alone. `walked` are the folded names the walker has in scope: on
      nodes other than SELECT it leaves some out. */
  lemma {:induction false} FreeIsWalked(v: Value, walked: set<string>, scope: set<string>, r: TableRef)
    requires walked <= FoldedNames(scope) && CaseExact(v, scope) && r in FreeRefs(v, scope)
    ensures Folded(r) in WalkRefs(v, walked)
    decreases v, 0
  {
    match v
    case Leaf(_) =>
    case Indirect(e) => FreeIsWalked(e, walked, scope, r);
    case Group(items) => FreeAreWalked(items, walked, scope, r);
    case RangeVar(schema, rel) =>
    case FuncCall(_, fields) => FreeAreWalked(fields, walked, scope, r);
    case _ =>
      if v.ctes.None? {
        FreeAreWalked(v.fields, walked, scope, r);
        assert WalkRefs(v, walked) == WalkRefsAll(v.fields, walked);
      } else {
        var w := v.ctes.value;
        var inner := scope + Names(w.defs);
        FoldedNamesUnion(scope, Names(w.defs));
        var seen := if v.OtherNode? then walked else walked + FoldedNames(Names(w.defs));
        var cteScope := if w.recursive then seen else walked;
        var outer := if w.recursive then inner else scope;
        assert WalkRefs(v, walked) ==
          WalkRefsCtes(w.defs, cteScope, w.recursive || v.OtherNode?) + WalkRefsAll(v.fields, seen);
        assert FreeRefs(v, scope) == FreeRefsCtes(w.defs, outer, w.recursive) + FreeRefsAll(v.fields, inner);
        if r in FreeRefsAll(v.fields, inner) {
          FreeAreWalked(v.fields, seen, inner, r);
        } else {
          FreeCtesAreWalked(w.defs, cteScope, w.recursive || v.OtherNode?, outer, w.recursive, r);
        }
      }
  }

  lemma {:induction false} FreeAreWalked(vs: seq<Value>, walked: set<string>, scope: set<string>, r: TableRef)
    requires walked <= FoldedNames(scope) && CaseExactAll(vs, scope) && r in FreeRefsAll(vs, scope)
    ensures Folded(r) in WalkRefsAll(vs, walked)
    decreases vs, 0
  {
    if r in FreeRefs(vs[0], scope) {
      FreeIsWalked(vs[0], walked, scope, r);
    } else {
      FreeAreWalked(vs[1..], walked, scope, r);
    }
  }

  /** `flat`: the walker shows every definition the same scope. */
  lemma {:induction false} FreeCtesAreWalked(defs: seq<Cte>, walked: set<string>, flat: bool, scope: set<string>,
      recursive: bool, r: TableRef)
    requires (recursive ==> flat) && walked <= FoldedNames(scope)
    requires CaseExactCtes(defs, scope, recursive) && r in FreeRefsCtes(defs, scope, recursive)
    ensures Folded(r) in WalkRefsCtes(defs, walked, flat)
    decreases defs, 0
  {
    if r in FreeRefs(defs[0].query, scope) {
      FreeIsWalked(defs[0].query, walked, scope, r);
    } else {
      var name := defs[0].name;
      FoldedNamesUnion(scope, {name});
      assert FoldedNames({name}) == {Lower(name)};
      FreeCtesAreWalked(defs[1..], if flat then walked else walked + {Lower(name)}, flat,
                        if recursive then scope else scope + {name}, recursive, r);
    }
  }

  /** Every CTE name and table name is written in lower case, as the parser folds
      identifiers that are not quoted. */
  predicate LowerCase(v: Value)
    decreases v, 0
  {
    match v
    case Leaf(_) => true
    case Indirect(e) => LowerCase(e)
    case Group(items) => LowerCaseAll(items)
    case RangeVar(_, rel) => Lower(rel) == rel
    case FuncCall(_, fields) => LowerCaseAll(fields)
    case _ => (v.ctes.Some? ==> LowerCaseCtes(v.ctes.value.defs)) && LowerCaseAll(v.fields)
  }

  predicate LowerCaseAll(vs: seq<Value>)
    decreases vs, 0
  {
    vs == [] || (LowerCase(vs[0]) && LowerCaseAll(vs[1..]))
  }

  predicate LowerCaseCtes(defs: seq<Cte>)
    decreases defs, 0
  {
    defs == [] || (Lower(defs[0].name) == defs[0].name && LowerCase(defs[0].query) && LowerCaseCtes(defs[1..]))
  }

  lemma {:induction false} LowerCaseIsExact(v: Value, scope: set<string>)
    requires LowerCase(v) && FoldedNames(scope) == scope
    ensures CaseExact(v, scope)
    decreases v, 0
  {
    match v
    case Leaf(_) =>
    case Indirect(e) => LowerCaseIsExact(e, scope);
    case Group(items) => LowerCaseAreExact(items, scope);
    case RangeVar(schema, rel) =>
    case FuncCall(_, fields) => LowerCaseAreExact(fields, scope);
    case _ =>
      if v.ctes.None? {
        LowerCaseAreExact(v.fields, scope);
      } else {
        var w := v.ctes.value;
        LowerCaseNames(w.defs);
        FoldedNamesUnion(scope, Names(w.defs));
        LowerCaseCtesAreExact(w.defs, if w.recursive then scope + Names(w.defs) else scope, w.recursive);
        LowerCaseAreExact(v.fields, scope + Names(w.defs));
      }
  }

  lemma {:induction false} LowerCaseAreExact(vs: seq<Value>, scope: set<string>)
    requires LowerCaseAll(vs) && FoldedNames(scope) == scope
    ensures CaseExactAll(vs, scope)
    decreases vs, 0
  {
    if vs != [] {
      LowerCaseIsExact(vs[0], scope);
      LowerCaseAreExact(vs[1..], scope);
    }
  }

  lemma FoldedOne(name: string)
    ensures FoldedNames({name}) == {Lower(name)}
  {
  }

  lemma {:induction false} LowerCaseCtesAreExact(defs: seq<Cte>, scope: set<string>, recursive: bool)
    requires LowerCaseCtes(defs) && FoldedNames(scope) == scope
    ensures CaseExactCtes(defs, scope, recursive)
    decreases defs, 0
  {
    hide FoldedNames, CaseExact;
    if defs != [] {
      LowerCaseIsExact(defs[0].query, scope);
      FoldedNamesUnion(scope, {defs[0].name});
      FoldedOne(defs[0].name);
      LowerCaseCtesAreExact(defs[1..], if recursive then scope else scope + {defs[0].name}, recursive);
    }
  }

  lemma {:induction false} LowerCaseNames(defs: seq<Cte>)
    requires LowerCaseCtes(defs)
    ensures FoldedNames(Names(defs)) == Names(defs)
  {
    hide FoldedNames, Names;
    if defs == [] {
      NoNames(defs);
      assert defs[..0] == defs;
    } else {
      LowerCaseNames(defs[1..]);
      NamesCons(defs);
      FoldedNamesUnion({defs[0].name}, Names(defs[1..]));
      FoldedOne(defs[0].name);
    }
  }

  /** An accepted statement is non-interfering over every domain when no reference
      differs from a CTE in scope by letter case alone; in particular when all its
      names are in lower case, so when none is quoted. */
  lemma AcceptedIsNonInterfering<D(!new)>(stmt: Value, allowed: seq<string>)
    requires InScope(stmt, allowed) && (CaseExact(stmt, {}) || LowerCase(stmt))
    ensures NonInterfering<D>(stmt, allowed)
  {
    assert FoldedNames({}) == {};
    if LowerCase(stmt) { LowerCaseIsExact(stmt, {}); }
    forall r | r in FreeRefs(stmt, {}) ensures Admitted(Folded(r), allowed) { FreeIsWalked(stmt, {}, {}, r); }
    WalkSucceeds(stmt, 0);
    Bounded<D>(stmt, allowed);
  }

  /** WITH "T" AS (SELECT ...) SELECT ... FROM t: the reference is not the CTE. */
  const SHADOWED := SelectStmt(Some(WithClause(false, [Cte("T", Leaf("1"))])), [RangeVar("", "t")])

  /** The input that interferes: under an empty allow-list SHADOWED is accepted, and
      table t is free in it. */
  lemma ShadowedInterferes()
    ensures InScope(SHADOWED, []) && !AllAdmitted(FreeRefs(SHADOWED, {}), [])
    ensures !NonInterfering<bool>(SHADOWED, [])
  {
    var defs, from := SHADOWED.ctes.value.defs, RangeVar("", "t");
    assert defs[0].name == "T" && Names(defs) == {"T"};
    assert Lower("T") == "t" == Lower("t");
    var inner: set<string> := {} + FoldedNames(Names(defs));
    assert Lower("t") in inner;
    assert WalkRefsAll([from], inner) == WalkRefs(from, inner) + WalkRefsAll([], inner) == [];
    assert WalkRefsCtes(defs, {}, false) == WalkRefs(Leaf("1"), {}) + [] == [];
    assert FirstErrorCtes(defs, 1) == First(FirstError(Leaf("1"), 1), FirstErrorCtes([], 1)) == None;
    assert FirstErrorAll([from], 1) == First(FirstError(from, 1), FirstErrorAll([], 1)) == None;
    var names: set<string> := {} + Names(defs);
    assert "t" !in names;
    assert FreeRefsAll([from], names) == FreeRefs(from, names) + [] == [TableRef("", "t")];
    assert TableRef("", "t") in FreeRefs(SHADOWED, {});
    NonInterference<bool>(SHADOWED, []);
  }
}
