/** internal/connectors/postgres: the table walker and the pg_allowed_tables check. */
module TableScope {
  import opened Strings
  import opened SqlTree

  const MAX_WALK_DEPTH := 500

  /** Levels the generic descent passes between a node other than SELECT and a
      query of its WITH clause: the clause, its list, the list's items, the item,
      its interface, the definition and the interface of its query. */
  const CTE_FIELD_DEPTH := 7

  const DENIED_FUNC_PREFIXES: seq<string> := [
    "query_to_xml", "table_to_xml", "schema_to_xml", "database_to_xml", "cursor_to_xml",
    "dblink", "pg_read_", "pg_ls_", "pg_stat_file", "pg_file_", "lo_",
    "pg_terminate_backend", "pg_cancel_backend", "pg_sleep", "set_config",
    "ts_stat", "pg_reload_conf", "pg_rotate_logfile", "pg_switch_wal", "pg_notify",
    "pg_advisory_", "pg_logical_", "pg_create_", "pg_drop_", "pg_replication_",
    "pg_export_snapshot", "nextval", "setval", "currval", "pg_backup_",
    "ts_rewrite", "crosstab", "connectby", "xpath_table", "pg_stat_get_", "pg_show_all_",
    "pg_sequence_last_value", "pg_promote", "pg_wal_replay_", "pg_import_system_collations"]

  predicate FuncDenied(name: string) {
    exists p :: p in DENIED_FUNC_PREFIXES && HasPrefix(Lower(name), p)
  }

  datatype WalkError = TooDeep | DeniedFunc(name: string)

  function Folded(r: TableRef): TableRef {
    TableRef(Lower(r.schema), Lower(r.name))
  }

  function FoldedNames(names: set<string>): set<string> {
    set n | n in names :: Lower(n)
  }

  // ----- what a walk records

  function First(a: Option<WalkError>, b: Option<WalkError>): Option<WalkError> {
    if a.Some? then a else b
  }

  /** The violation a walk of v starting at `depth` meets first. */
  function FirstError(v: Value, depth: nat): Option<WalkError>
    decreases v, 0
  {
    if depth > MAX_WALK_DEPTH then Some(TooDeep)
    else match v
      case Leaf(_) => None
      case Indirect(e) => FirstError(e, depth + 1)
      case Group(items) => FirstErrorAll(items, depth + 1)
      case RangeVar(_, _) => None
      case FuncCall(f, fields) =>
        if f.Some? && FuncDenied(f.value) then Some(DeniedFunc(f.value)) else FirstErrorAll(fields, depth + 1)
      case SelectStmt(w, fields) =>
        First(if w.Some? then FirstErrorCtes(w.value.defs, depth + 1) else None, FirstErrorAll(fields, depth + 1))
      case OtherNode(_, w, fields) =>
        First(if w.Some? then FirstErrorCtes(w.value.defs, depth + CTE_FIELD_DEPTH) else None,
              FirstErrorAll(fields, depth + 1))
  }

  function FirstErrorAll(vs: seq<Value>, depth: nat): Option<WalkError>
    decreases vs, 0
  {
    if vs == [] then None else First(FirstError(vs[0], depth), FirstErrorAll(vs[1..], depth))
  }

  function FirstErrorCtes(defs: seq<Cte>, depth: nat): Option<WalkError>
    decreases defs, 0
  {
    if defs == [] then None else First(FirstError(defs[0].query, depth), FirstErrorCtes(defs[1..], depth))
  }

  /** The references an unhindered walk of v appends, `scope` being the folded
      CTE names in scope. */
  function WalkRefs(v: Value, scope: set<string>): seq<TableRef>
    decreases v, 0
  {
    match v
    case Leaf(_) => []
    case Indirect(e) => WalkRefs(e, scope)
    case Group(items) => WalkRefsAll(items, scope)
    case RangeVar(schema, rel) =>
      if schema == "" && Lower(rel) in scope then [] else [Folded(TableRef(schema, rel))]
    case FuncCall(_, fields) => WalkRefsAll(fields, scope)
    case SelectStmt(w, fields) =>
      if w.None? then WalkRefsAll(fields, scope)
      else
        var inner := scope + FoldedNames(Names(w.value.defs));
        WalkRefsCtes(w.value.defs, if w.value.recursive then inner else scope, w.value.recursive) +
        WalkRefsAll(fields, inner)
    case OtherNode(_, w, fields) =>
      (if w.Some? then WalkRefsCtes(w.value.defs, scope, true) else []) + WalkRefsAll(fields, scope)
  }

  function WalkRefsAll(vs: seq<Value>, scope: set<string>): seq<TableRef>
    decreases vs, 0
  {
    if vs == [] then [] else WalkRefs(vs[0], scope) + WalkRefsAll(vs[1..], scope)
  }

  function WalkRefsCtes(defs: seq<Cte>, scope: set<string>, recursive: bool): seq<TableRef>
    decreases defs, 0
  {
    if defs == [] then []
    else
      WalkRefs(defs[0].query, scope) +
      WalkRefsCtes(defs[1..], if recursive then scope else scope + {Lower(defs[0].name)}, recursive)
  }

  // ----- the walker

  /** A CTE scope: Go's map[string]bool, passed by reference. */
  class Scope {
    var names: set<string>

    constructor (names: set<string>)
      ensures this.names == names
    {
      this.names := names;
    }
  }

  class TableWalker {
    var refs: seq<TableRef>
    var err: Option<WalkError>

    constructor ()
      ensures refs == [] && err == None
    {
      refs, err := [], None;
    }

    /** The walker state after a part of the tree whose first violation is `e`
        and whose references are `rs`. */
    twostate predicate Walked(new e: Option<WalkError>, new rs: seq<TableRef>)
      reads this
    {
      && err == First(old(err), e)
      && (old(err).Some? ==> refs == old(refs))
      && (err.None? ==> refs == old(refs) + rs)
    }

    method Fail(e: WalkError)
      modifies this
      ensures refs == old(refs) && err == First(old(err), Some(e))
    {
      if err == None { err := Some(e); }
    }

    method WalkValue(v: Value, cte: Scope, depth: nat)
      modifies this
      ensures Walked(FirstError(v, depth), WalkRefs(v, cte.names))
      decreases 501 - depth, 3
    {
      if err != None { return; }
      if depth > MAX_WALK_DEPTH {
        Fail(TooDeep);
        return;
      }
      match v
      case Leaf(_) =>
      case Indirect(e) => WalkValue(e, cte, depth + 1);
      case Group(items) => WalkFields(items, cte, depth);
      case _ => WalkNode(v, cte, depth);
    }

    method WalkFields(fields: seq<Value>, cte: Scope, depth: nat)
      requires depth <= MAX_WALK_DEPTH
      modifies this
      ensures Walked(FirstErrorAll(fields, depth + 1), WalkRefsAll(fields, cte.names))
      decreases 501 - depth, 0
    {
      hide FirstError, FirstErrorAll, WalkRefs, WalkRefsAll;
      NoFields(depth + 1, cte.names);
      assert fields[0..] == fields && fields[|fields|..] == [];
      for i := 0 to |fields|
        invariant First(err, FirstErrorAll(fields[i..], depth + 1)) == First(old(err), FirstErrorAll(fields, depth + 1))
        invariant old(err).Some? ==> refs == old(refs) && err == old(err)
        invariant err.None? ==> refs + WalkRefsAll(fields[i..], cte.names) == old(refs) + WalkRefsAll(fields, cte.names)
      {
        FieldStep(fields, i, depth + 1, cte.names);
        WalkValue(fields[i], cte, depth + 1);
      }
    }

    method WalkNode(v: Value, cte: Scope, depth: nat)
      requires depth <= MAX_WALK_DEPTH
      requires v.RangeVar? || v.FuncCall? || v.SelectStmt? || v.OtherNode?
      requires err == None
      modifies this
      ensures Walked(FirstError(v, depth), WalkRefs(v, cte.names))
      decreases 501 - depth, 2
    {
      match v
      case RangeVar(schema, rel) =>
        var name := Lower(rel);
        if schema == "" && name in cte.names { return; }
        refs := refs + [TableRef(Lower(schema), name)];
      case FuncCall(f, fields) =>
        if f.Some? && FuncDenied(f.value) {
          Fail(DeniedFunc(f.value));
          return;
        }
        WalkFields(fields, cte, depth);
      case SelectStmt(w, fields) =>
        WalkSelect(w, fields, cte, depth);
      case OtherNode(_, w, fields) =>
        if w.Some? { WalkDefinitions(w.value.defs, cte, depth + CTE_FIELD_DEPTH); }
        WalkFields(fields, cte, depth);
    }

    /** CTE queries that all see the same scope. */
    method WalkDefinitions(defs: seq<Cte>, cte: Scope, depth: nat)
      requires 0 < depth <= MAX_WALK_DEPTH + CTE_FIELD_DEPTH
      modifies this
      ensures Walked(FirstErrorCtes(defs, depth), WalkRefsCtes(defs, cte.names, true))
      decreases 501 - depth, 4
    {
      hide FirstError, FirstErrorCtes, WalkRefs, WalkRefsCtes;
      NoDefs(depth, cte.names, true);
      assert defs[0..] == defs && defs[|defs|..] == [];
      for i := 0 to |defs|
        invariant First(err, FirstErrorCtes(defs[i..], depth)) == First(old(err), FirstErrorCtes(defs, depth))
        invariant old(err).Some? ==> refs == old(refs) && err == old(err)
        invariant err.None? ==>
          refs + WalkRefsCtes(defs[i..], cte.names, true) == old(refs) + WalkRefsCtes(defs, cte.names, true)
      {
        DefStep(defs, i, depth, cte.names, true);
        WalkValue(defs[i].query, cte, depth);
      }
    }

    /** Only a fresh scope is filled: `cte` itself is outside the frame. */
    method WalkSelect(w: Option<WithClause>, fields: seq<Value>, cte: Scope, depth: nat)
      requires depth <= MAX_WALK_DEPTH
      modifies this
      ensures Walked(FirstError(SelectStmt(w, fields), depth), WalkRefs(SelectStmt(w, fields), cte.names))
      decreases 501 - depth, 1
    {
      if w.None? {
        WalkFields(fields, cte, depth);
      } else {
        var scope := new Scope(cte.names);
        if w.value.recursive {
          DefineAll(w.value.defs, scope);
          WalkDefinitions(w.value.defs, scope, depth + 1);
        } else {
          WalkInOrder(w.value.defs, scope, depth + 1);
        }
        WalkFields(fields, scope, depth);
      }
    }

    static method DefineAll(defs: seq<Cte>, scope: Scope)
      modifies scope
      ensures scope.names == old(scope.names) + FoldedNames(Names(defs))
    {
      for i := 0 to |defs|
        invariant scope.names == old(scope.names) + FoldedNames(Names(defs[..i]))
      {
        scope.names := scope.names + {Lower(defs[i].name)};
        FoldedNamesSnoc(defs, i);
      }
      assert defs[..|defs|] == defs;
    }

    /** Non-recursive: a definition's own query sees only earlier definitions. */
    method WalkInOrder(defs: seq<Cte>, scope: Scope, depth: nat)
      requires 0 < depth <= MAX_WALK_DEPTH + 1
      modifies this, scope
      ensures scope.names == old(scope.names) + FoldedNames(Names(defs))
      ensures Walked(FirstErrorCtes(defs, depth), WalkRefsCtes(defs, old(scope.names), false))
      decreases 501 - depth, 4
    {
      hide FirstError, FirstErrorCtes, WalkRefs, WalkRefsCtes, FoldedNames, Names;
      NoNames(defs);
      assert defs[0..] == defs && defs[|defs|..] == [];
      for i := 0 to |defs|
        invariant scope.names == old(scope.names) + FoldedNames(Names(defs[..i]))
        invariant First(err, FirstErrorCtes(defs[i..], depth)) == First(old(err), FirstErrorCtes(defs, depth))
        invariant old(err).Some? ==> refs == old(refs) && err == old(err)
        invariant err.None? ==>
          refs + WalkRefsCtes(defs[i..], scope.names, false) == old(refs) + WalkRefsCtes(defs, old(scope.names), false)
      {
        DefStep(defs, i, depth, scope.names, false);
        WalkValue(defs[i].query, scope, depth);
        scope.names := scope.names + {Lower(defs[i].name)};
        FoldedNamesSnoc(defs, i);
      }
      NoDefs(depth, scope.names, false);
      assert defs[..|defs|] == defs;
    }
  }

  lemma NoFields(depth: nat, scope: set<string>)
    ensures FirstErrorAll([], depth) == None && WalkRefsAll([], scope) == []
  {
  }

  lemma FieldStep(fields: seq<Value>, i: nat, depth: nat, scope: set<string>)
    requires i < |fields|
    ensures FirstErrorAll(fields[i..], depth) ==
      First(FirstError(fields[i], depth), FirstErrorAll(fields[i + 1..], depth))
    ensures WalkRefsAll(fields[i..], scope) == WalkRefs(fields[i], scope) + WalkRefsAll(fields[i + 1..], scope)
  {
    assert fields[i..][0] == fields[i] && fields[i..][1..] == fields[i + 1..];
  }

  lemma NoDefs(depth: nat, scope: set<string>, recursive: bool)
    ensures FirstErrorCtes([], depth) == None && WalkRefsCtes([], scope, recursive) == []
  {
  }

  lemma DefStep(defs: seq<Cte>, i: nat, depth: nat, scope: set<string>, recursive: bool)
    requires i < |defs|
    ensures FirstErrorCtes(defs[i..], depth) ==
      First(FirstError(defs[i].query, depth), FirstErrorCtes(defs[i + 1..], depth))
    ensures WalkRefsCtes(defs[i..], scope, recursive) == WalkRefs(defs[i].query, scope) +
      WalkRefsCtes(defs[i + 1..], if recursive then scope else scope + {Lower(defs[i].name)}, recursive)
  {
    assert defs[i..][0] == defs[i] && defs[i..][1..] == defs[i + 1..];
  }

  lemma NoNames(defs: seq<Cte>)
    ensures Names(defs[..0]) == {} && FoldedNames(Names(defs[..0])) == {}
  {
  }

  lemma FoldedNamesSnoc(defs: seq<Cte>, i: nat)
    requires i < |defs|
    ensures FoldedNames(Names(defs[..i + 1])) == FoldedNames(Names(defs[..i])) + {Lower(defs[i].name)}
  {
  }
}
