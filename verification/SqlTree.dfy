/** Parsed SQL statements as the table walker sees them, their lexically scoped
    meaning, and the table references that meaning depends on. */
module SqlTree {
  import opened Strings

  /** A value met by the reflective descent. Only fields of a kind the walker
      descends into are listed; everything else about a node is in its text or tag. */
  datatype Value =
    | Leaf(text: string)                              // nil, or a kind with nothing below it
    | Indirect(elem: Value)                           // interface, or pointer to a non-node
    | Group(items: seq<Value>)                        // slice, array or struct
    | RangeVar(schema: string, rel: string)
    | FuncCall(func: Option<string>, fields: seq<Value>)
    | SelectStmt(ctes: Option<WithClause>, fields: seq<Value>)
    | OtherNode(tag: string, ctes: Option<WithClause>, fields: seq<Value>)

  datatype WithClause = WithClause(recursive: bool, defs: seq<Cte>)

  datatype Cte = Cte(name: string, query: Value)

  datatype TableRef = TableRef(schema: string, name: string)

  function Names(defs: seq<Cte>): set<string> {
    set i | 0 <= i < |defs| :: defs[i].name
  }

  // ----- meaning

  type Database<!D> = TableRef -> D

  /** Any interpretation of the SQL operators over a domain D. D may itself be a
      space of functions of the outer row, so correlated subqueries are covered.
      A call of a denied function may look at the whole database. A SELECT or
      other node also gets the values of its WITH queries, in order: an
      unreferenced one may still fail or write. */
  datatype Algebra<!D> = Algebra(
    leaf: string -> D,
    group: seq<D> -> D,
    call: (Option<string>, seq<D>) -> D,
    reach: (string, seq<D>, Database<D>) -> D,
    select: (seq<D>, seq<D>) -> D,
    node: (string, seq<D>, seq<D>) -> D,
    empty: D,
    step: (D, D) -> D,
    done: map<string, D> -> bool)

  /** The value of v when unqualified names in scope denote CTE results and all
      other names denote tables of db. `rounds` bounds the iterations of each
      recursive WITH; `alg.done` may stop one earlier. */
  ghost function Eval<D>(v: Value, db: Database<D>, scope: map<string, D>, alg: Algebra<D>,
                         denied: string -> bool, rounds: nat): D
    decreases v, 0
  {
    match v
    case Leaf(text) => alg.leaf(text)
    case Indirect(e) => Eval(e, db, scope, alg, denied, rounds)
    case Group(items) => alg.group(EvalAll(items, db, scope, alg, denied, rounds))
    case RangeVar(schema, rel) =>
      if schema == "" && rel in scope then scope[rel] else db(TableRef(schema, rel))
    case FuncCall(f, fields) =>
      var args := EvalAll(fields, db, scope, alg, denied, rounds);
      if f.Some? && denied(f.value) then alg.reach(f.value, args, db) else alg.call(f, args)
    case SelectStmt(w, fields) =>
      var inner := if w.Some? then Bind(w.value, db, scope, alg, denied, rounds) else scope;
      var withs := if w.Some? then WithValues(w.value, db, scope, inner, alg, denied, rounds) else [];
      alg.select(withs, EvalAll(fields, db, inner, alg, denied, rounds))
    case OtherNode(tag, w, fields) =>
      var inner := if w.Some? then Bind(w.value, db, scope, alg, denied, rounds) else scope;
      var withs := if w.Some? then WithValues(w.value, db, scope, inner, alg, denied, rounds) else [];
      alg.node(tag, withs, EvalAll(fields, db, inner, alg, denied, rounds))
  }

  /** The values of the WITH queries themselves: each over the names before it, or
      over all of them, as bound in the end, when the clause is RECURSIVE. */
  ghost function WithValues<D>(w: WithClause, db: Database<D>, scope: map<string, D>, inner: map<string, D>,
                               alg: Algebra<D>, denied: string -> bool, rounds: nat): seq<D>
    decreases w, 0
  {
    Queries(w.defs, db, if w.recursive then inner else scope, w.recursive, alg, denied, rounds)
  }

  ghost function Queries<D>(defs: seq<Cte>, db: Database<D>, scope: map<string, D>, recursive: bool, alg: Algebra<D>,
                            denied: string -> bool, rounds: nat): seq<D>
    decreases defs, 0
  {
    if defs == [] then []
    else
      var value := Eval(defs[0].query, db, scope, alg, denied, rounds);
      var next := if recursive then scope else scope[defs[0].name := value];
      [value] + Queries(defs[1..], db, next, recursive, alg, denied, rounds)
  }

  ghost function EvalAll<D>(vs: seq<Value>, db: Database<D>, scope: map<string, D>, alg: Algebra<D>,
                            denied: string -> bool, rounds: nat): seq<D>
    decreases vs, 0
  {
    if vs == [] then []
    else [Eval(vs[0], db, scope, alg, denied, rounds)] + EvalAll(vs[1..], db, scope, alg, denied, rounds)
  }

  /** The scope inside a WITH: names bound one after the other, or all at once
      and iterated when the clause is RECURSIVE. */
  ghost function Bind<D>(w: WithClause, db: Database<D>, scope: map<string, D>, alg: Algebra<D>,
                         denied: string -> bool, rounds: nat): map<string, D>
    decreases w, 0
  {
    if w.recursive then
      Iterate(w.defs, db, scope + map n | n in Names(w.defs) :: alg.empty, alg, denied, rounds, rounds)
    else
      BindInOrder(w.defs, db, scope, alg, denied, rounds)
  }

  ghost function BindInOrder<D>(defs: seq<Cte>, db: Database<D>, scope: map<string, D>, alg: Algebra<D>,
                                denied: string -> bool, rounds: nat): map<string, D>
    decreases defs, 0
  {
    if defs == [] then scope
    else
      var value := Eval(defs[0].query, db, scope, alg, denied, rounds);
      BindInOrder(defs[1..], db, scope[defs[0].name := value], alg, denied, rounds)
  }

  ghost function Iterate<D>(defs: seq<Cte>, db: Database<D>, scope: map<string, D>, alg: Algebra<D>,
                            denied: string -> bool, rounds: nat, left: nat): map<string, D>
    decreases defs, 1, left
  {
    if left == 0 || alg.done(scope) then scope
    else
      Iterate(defs, db, scope + Round(defs, db, scope, alg, denied, rounds), alg, denied, rounds, left - 1)
  }

  /** One more iteration: every definition evaluated against the current scope. */
  ghost function Round<D>(defs: seq<Cte>, db: Database<D>, scope: map<string, D>, alg: Algebra<D>,
                          denied: string -> bool, rounds: nat): (r: map<string, D>)
    ensures r.Keys == Names(defs)
    decreases defs, 0
  {
    if defs == [] then map[]
    else
      var name := defs[0].name;
      var value := Eval(defs[0].query, db, scope, alg, denied, rounds);
      assert Names(defs) == {name} + Names(defs[1..]) by { NamesCons(defs); }
      var stepped := if name in scope then alg.step(scope[name], value) else value;
      Round(defs[1..], db, scope, alg, denied, rounds)[name := stepped]
  }

  lemma NamesCons(defs: seq<Cte>)
    requires defs != []
    ensures Names(defs) == {defs[0].name} + Names(defs[1..])
  {
  }

  // ----- lexically free table references, in the order of the text

  function FreeRefs(v: Value, scope: set<string>): seq<TableRef>
    decreases v, 0
  {
    match v
    case Leaf(_) => []
    case Indirect(e) => FreeRefs(e, scope)
    case Group(items) => FreeRefsAll(items, scope)
    case RangeVar(schema, rel) =>
      if schema == "" && rel in scope then [] else [TableRef(schema, rel)]
    case FuncCall(_, fields) => FreeRefsAll(fields, scope)
    case _ =>
      if v.ctes.None? then FreeRefsAll(v.fields, scope)
      else
        var w := v.ctes.value;
        var inner := scope + Names(w.defs);
        FreeRefsCtes(w.defs, if w.recursive then inner else scope, w.recursive) + FreeRefsAll(v.fields, inner)
  }

  function FreeRefsCtes(defs: seq<Cte>, scope: set<string>, recursive: bool): seq<TableRef>
    decreases defs, 0
  {
    if defs == [] then []
    else
      FreeRefs(defs[0].query, scope) +
      FreeRefsCtes(defs[1..], if recursive then scope else scope + {defs[0].name}, recursive)
  }

  function FreeRefsAll(vs: seq<Value>, scope: set<string>): seq<TableRef>
    decreases vs, 0
  {
    if vs == [] then [] else FreeRefs(vs[0], scope) + FreeRefsAll(vs[1..], scope)
  }
}
