/** Parameters of internal/policy/registry.go: ValidateParams, CheckConstraints and
    ApplyDefaults. `matches(pattern, s)` stands for the regular expression engine. */
module Validation {
  import opened Strings
  import opened Sorting
  import opened JqlScope

  // ----- parameters and operations

  /** A decoded JSON value; of an object only the keys matter here. */
  datatype Val = Text(s: string) | Number(n: real) | Flag(b: bool) | Object(keys: set<string>) | Items | Null

  type Values = map<string, Val>

  datatype ParamType = TString | TObject | TInt | TBool | TEnum | TOther

  /** Keys and values are None when the definition does not list them. */
  datatype ParamDef = ParamDef(
    kind: ParamType, required: bool, from: string, values: Option<seq<string>>,
    max: int, maxLen: int, pattern: string, keys: Option<seq<string>>, multiSegment: bool, default: Option<Val>)

  /** The projects of a jql_scope constraint: a "$workspace." name, a literal list
      (None: an item that is not a string), or neither. */
  datatype Projects = FromWorkspace(name: string) | Literal(items: seq<Option<string>>) | Neither

  datatype Constraint = JqlScope(projects: Projects) | Unenforced

  datatype Operation = Operation(
    connector: string, slackFileContent: bool, site: string, path: string,
    params: map<string, ParamDef>, constraints: seq<Constraint>)

  /** Allow-lists by name; an absent list is not configured. */
  type Policy = map<string, seq<string>>

  const LISTS := {
    "jira_projects", "bitbucket_repos", "gitlab_projects", "github_repos", "pg_allowed_tables",
    "slack_channels", "kibana_clusters", "kibana_indices", "clockify_projects" }

  const WORKSPACE := "$workspace."

  function Listed(policy: Policy, name: string): seq<string> {
    if name in policy then policy[name] else []
  }

  // ----- validation

  predicate EnumAccepts(def: ParamDef, s: string, policy: Policy) {
    if HasPrefix(def.from, WORKSPACE) then
      var field := def.from[|WORKSPACE|..];
      field in LISTS && Listed(policy, field) != [] ==> s in Listed(policy, field)
    else
      def.values.Some? ==> s in def.values.value
  }

  predicate Accepts(def: ParamDef, v: Val, policy: Policy, matches: (string, string) -> bool) {
    match def.kind
    case TString =>
      v.Text? && (def.maxLen > 0 ==> |v.s| <= def.maxLen) && (def.pattern != "" ==> matches(def.pattern, v.s))
    case TObject => v.Object? && (def.keys.Some? ==> forall k :: k in v.keys ==> k in def.keys.value)
    case TInt => v.Number? && (def.max > 0 ==> v.n <= def.max as real)
    case TBool => v.Flag?
    case TEnum => v.Text? && EnumAccepts(def, v.s, policy)
    case TOther => true
  }

  /** The declared parameter is there when required, and acceptable when there. */
  predicate Passes(op: Operation, params: Values, policy: Policy, matches: (string, string) -> bool, name: string)
    requires name in op.params
  {
    if name in params then Accepts(op.params[name], params[name], policy, matches) else !op.params[name].required
  }

  predicate Declared(op: Operation, name: string) {
    name == "env" || name == "cluster" || name in op.params
  }

  predicate ValidParams(op: Operation, params: Values, policy: Policy, matches: (string, string) -> bool) {
    && (forall name :: name in op.params ==> Passes(op, params, policy, matches, name))
    && (forall name :: name in params ==> Declared(op, name))
  }

  datatype ParamError = Missing(name: string) | Unacceptable(name: string) | Unknown(name: string)

  /** sort.Strings on a map's keys. */
  method SortedNames(names: set<string>) returns (ys: seq<string>)
    ensures (forall i, j :: 0 <= i < j < |ys| ==> TextLess(ys[i], ys[j])) && forall x :: x in ys <==> x in names
  {
    hide TextLess;
    var xs: seq<string> := [];
    var left := names;
    while left != {}
      invariant left <= names && Distinct(xs) && forall x :: x in xs <==> x in names && x !in left
      decreases left
    {
      var x :| x in left;
      xs := xs + [x];
      left := left - {x};
    }
    TextOrder();
    ys := Sort(xs, BY_TEXT);
    StrictlySorted(xs, ys, BY_TEXT);
    assert forall i, j :: 0 <= i < j < |ys| ==> BY_TEXT(ys[i], ys[j]);
  }

  /** No error exactly for valid parameters; a declared parameter is blamed only
      when every smaller name passes, an undeclared one only when all pass. */
  method ValidateParams(op: Operation, params: Values, policy: Policy, matches: (string, string) -> bool)
    returns (r: Option<ParamError>)
    ensures r.None? <==> ValidParams(op, params, policy, matches)
    ensures r.Some? && !r.value.Unknown? ==>
      && r.value.name in op.params && !Passes(op, params, policy, matches, r.value.name)
      && (r.value.Missing? <==> r.value.name !in params)
      && forall name :: name in op.params && TextLess(name, r.value.name) ==> Passes(op, params, policy, matches, name)
    ensures r.Some? && r.value.Unknown? ==>
      && r.value.name in params && !Declared(op, r.value.name)
      && forall name :: name in op.params ==> Passes(op, params, policy, matches, name)
  {
    hide Accepts, TextLess;
    var names := SortedNames(op.params.Keys);
    for i := 0 to |names|
      invariant forall j :: 0 <= j < i ==> Passes(op, params, policy, matches, names[j])
    {
      var name := names[i];
      var def := op.params[name];
      if (name !in params && def.required) || (name in params && !Accepts(def, params[name], policy, matches)) {
        assert forall k :: i < k < |names| ==> TextLess(name, names[k]);
        forall n | n in op.params && TextLess(n, name) ensures Passes(op, params, policy, matches, n) {
          var j :| 0 <= j < |names| && names[j] == n;
          TextTotal(n, name);
        }
        return Some(if name in params then Unacceptable(name) else Missing(name));
      }
    }
    assert forall n :: n in op.params ==> n in names;
    var left := params.Keys;
    while left != {}
      invariant left <= params.Keys && forall name :: name in params && name !in left ==> Declared(op, name)
      decreases left
    {
      var name :| name in left;
      if name != "env" && name != "cluster" && name !in op.params { return Some(Unknown(name)); }
      left := left - {name};
    }
    return None;
  }

  // ----- constraints

  function NonEmpty(items: seq<Option<string>>): seq<string> {
    if items == [] then []
    else if items[0].Some? && items[0].value != "" then [items[0].value] + NonEmpty(items[1..])
    else NonEmpty(items[1..])
  }

  datatype Scope = Refused | Keys(keys: seq<string>)

  /** The project keys a jql_scope constraint enforces; [] enforces nothing. */
  function ScopeOf(p: Projects, policy: Policy): Scope {
    var fallback := Keys(Listed(policy, "jira_projects"));
    match p
    case Neither => fallback
    case Literal(items) => if NonEmpty(items) == [] then Scope.Refused else Keys(NonEmpty(items))
    case FromWorkspace(name) =>
      if name == "$workspace.bitbucket_repos" && "bitbucket_repos" in policy then Keys(policy["bitbucket_repos"])
      else if name == "$workspace.pg_allowed_tables" && "pg_allowed_tables" in policy then
        Keys(policy["pg_allowed_tables"])
      else fallback
  }

  function JqlOf(params: Values): Option<string> {
    if "jql" in params && params["jql"].Text? then Some(params["jql"].s) else None
  }

  function ApplyScope(params: Values, keys: seq<string>, sortFields: string -> bool): Option<Values> {
    var jql := JqlOf(params);
    if jql.None? || TrimSpace(jql.value) == "" then None
    else if keys == [] then Some(params)
    else
      match SplitOrderBy(jql.value, sortFields)
      case Refused => None
      case Parts(filter, order) => Some(params["jql" := Text(Scoped(filter, order, keys))])
  }

  /** CheckConstraints: the parameters as the constraints leave them. */
  function Constrain(cs: seq<Constraint>, policy: Policy, params: Values, sortFields: string -> bool): Option<Values>
    decreases |cs|
  {
    if cs == [] then Some(params)
    else if cs[0].Unenforced? then Constrain(cs[1..], policy, params, sortFields)
    else
      var scope := ScopeOf(cs[0].projects, policy);
      if scope.Refused? then None
      else
        var p := ApplyScope(params, scope.keys, sortFields);
        if p.None? then None else Constrain(cs[1..], policy, p.value, sortFields)
  }

  /** Constraints change no parameter but jql. */
  lemma {:induction false} ConstrainKeepsOthers(cs: seq<Constraint>, policy: Policy, params: Values,
      sortFields: string -> bool, name: string)
    requires Constrain(cs, policy, params, sortFields).Some? && name != "jql"
    ensures var r := Constrain(cs, policy, params, sortFields).value;
      (name in r <==> name in params) && (name in params ==> r[name] == params[name])
    decreases |cs|
  {
    hide SplitOrderBy, ScopeOf, TrimSpace, Scoped;
    if cs != [] {
      if cs[0].Unenforced? {
        ConstrainKeepsOthers(cs[1..], policy, params, sortFields, name);
      } else {
        var next := ApplyScope(params, ScopeOf(cs[0].projects, policy).keys, sortFields).value;
        ConstrainKeepsOthers(cs[1..], policy, next, sortFields, name);
      }
    }
  }

  /** Parameters present in the request keep their value. */
  function Defaulted(op: Operation, params: Values): (r: Values)
    ensures forall name :: name in params ==> name in r && r[name] == params[name]
    ensures forall name :: name in r && name !in params ==>
      name in op.params && op.params[name].default == Some(r[name])
    ensures forall name :: name in op.params && op.params[name].default.Some? ==> name in r
  {
    map name | name in params.Keys + op.params.Keys && (name in params || op.params[name].default.Some?) ::
      if name in params then params[name] else op.params[name].default.value
  }

  // ----- the parameter map of one request

  class Params {
    var entries: Values

    constructor (body: Values)
      ensures entries == body
    {
      entries := body;
    }

    method CheckConstraints(op: Operation, policy: Policy, sortFields: string -> bool) returns (ok: bool)
      modifies this
      ensures ok <==> Constrain(op.constraints, policy, old(entries), sortFields).Some?
      ensures ok ==> Some(entries) == Constrain(op.constraints, policy, old(entries), sortFields)
    {
      hide ScopeOf, SplitOrderBy, TrimSpace;
      var cs := op.constraints;
      ghost var result := Constrain(cs, policy, entries, sortFields);
      while cs != []
        invariant Constrain(cs, policy, entries, sortFields) == result
        decreases |cs|
      {
        if cs[0].JqlScope? {
          var scope := ScopeOf(cs[0].projects, policy);
          if scope.Refused? { return false; }
          var allowed := CheckScope(scope.keys, sortFields);
          if !allowed { return false; }
        }
        cs := cs[1..];
      }
      return true;
    }

    /** JQLScopeConstraint.Check. */
    method CheckScope(keys: seq<string>, sortFields: string -> bool) returns (ok: bool)
      modifies this
      ensures ok <==> ApplyScope(old(entries), keys, sortFields).Some?
      ensures ok ==> Some(entries) == ApplyScope(old(entries), keys, sortFields)
    {
      var checked := Check(JqlOf(entries), keys, sortFields);
      if checked.Denied? { return false; }
      if checked.Rewritten? { entries := entries["jql" := Text(checked.jql)]; }
      return true;
    }

    method ApplyDefaults(op: Operation)
      modifies this
      ensures entries == Defaulted(op, old(entries))
    {
      var left := op.params.Keys;
      while left != {}
        invariant left <= op.params.Keys
        invariant forall name :: name in old(entries) ==> name in entries && entries[name] == old(entries)[name]
        invariant forall name :: name in entries && name !in old(entries) ==>
          name in op.params && name !in left && op.params[name].default == Some(entries[name])
        invariant forall name :: name in op.params && name !in left && op.params[name].default.Some? ==> name in entries
        decreases left
      {
        var name :| name in left;
        var def := op.params[name];
        if name !in entries && def.default.Some? { entries := entries[name := def.default.value]; }
        left := left - {name};
      }
    }
  }
}
