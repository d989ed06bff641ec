/** What the JQL of an upstream call means: the request's own query and every
    project scope of the operation. */
module CallScope {
  import opened Strings
  import opened JqlScope
  import opened JqlResplit
  import opened JqlMeaning
  import opened Validation
  import opened Pipeline

  /** The key lists the constraints enforce, in order. */
  function Enforced(cs: seq<Constraint>, policy: Policy): seq<seq<string>>
    decreases |cs|
  {
    if cs == [] then []
    else
      var rest := Enforced(cs[1..], policy);
      if cs[0].JqlScope? && ScopeOf(cs[0].projects, policy).Keys? && ScopeOf(cs[0].projects, policy).keys != []
      then [ScopeOf(cs[0].projects, policy).keys] + rest
      else rest
  }

  ghost predicate AllPlain(lists: seq<seq<string>>) {
    forall i :: 0 <= i < |lists| ==> PlainKeys(lists[i])
  }

  function InAll(lists: seq<seq<string>>, clause: seq<Token> -> bool): bool
    requires AllPlain(lists)
  {
    lists == [] || (clause(ProjectTokens(lists[0])) && InAll(lists[1..], clause))
  }

  /** The truth of a filter, the empty one being true; None when it has no parse. */
  function Meaning(filter: string, clause: seq<Token> -> bool): Option<bool> {
    if filter == "" then Some(true)
    else match Parse(Lex(filter)) case None => None case Some(e) => Some(Holds(e, clause))
  }

  function Narrowed(m: Option<bool>, b: bool): Option<bool> {
    if m.None? then None else Some(m.value && b)
  }

  /** Both queries split, with the same ORDER BY, and `after` means `before` and b. */
  ghost predicate Narrows(before: string, after: string, b: bool, sortFields: string -> bool,
      clause: seq<Token> -> bool) {
    var p, q := SplitOrderBy(before, sortFields), SplitOrderBy(after, sortFields);
    p.Parts? && q.Parts? && q.order == p.order && Meaning(q.filter, clause) == Narrowed(Meaning(p.filter, clause), b)
  }

  lemma OneScope(jql: string, keys: seq<string>, sortFields: string -> bool, clause: seq<Token> -> bool)
    requires SplitOrderBy(jql, sortFields).Parts? && PlainKeys(keys)
    ensures var p := SplitOrderBy(jql, sortFields);
      Narrows(jql, Scoped(p.filter, p.order, keys), clause(ProjectTokens(keys)), sortFields, clause)
  {
    hide SplitOrderBy, Run, Lex, Parse, Wrapped, Scoped, PlainKeys, ProjectTokens;
    var p := SplitOrderBy(jql, sortFields);
    ScopedMeans(jql, keys, sortFields, clause);
    ScopedSplitsBack(jql, keys, sortFields);
    WrappedEnds(p.filter, keys);
  }

  lemma NarrowsTwice(a: string, b: string, c: string, x: bool, y: bool, sortFields: string -> bool,
      clause: seq<Token> -> bool)
    ensures Narrows(a, b, x, sortFields, clause) && Narrows(b, c, y, sortFields, clause) ==>
      Narrows(a, c, x && y, sortFields, clause)
  {
    hide SplitOrderBy, Meaning;
  }

  /** The parameters differ at most in jql. */
  ghost predicate SameButJql(a: Values, b: Values) {
    a.Keys == b.Keys && forall name :: name in a && name != "jql" ==> a[name] == b[name]
  }

  /** CheckConstraints changes nothing but jql, and jql only when a scope is
      enforced: then the new query means the old one and all the scopes. */
  lemma {:induction false} ConstrainMeans(
      cs: seq<Constraint>, policy: Policy, params: Values, sortFields: string -> bool, clause: seq<Token> -> bool)
    requires Constrain(cs, policy, params, sortFields).Some? && AllPlain(Enforced(cs, policy))
    ensures var r := Constrain(cs, policy, params, sortFields).value;
      && SameButJql(params, r)
      && (Enforced(cs, policy) == [] ==> r == params)
      && (Enforced(cs, policy) != [] ==>
            && JqlOf(params).Some? && JqlOf(r).Some?
            && Narrows(JqlOf(params).value, JqlOf(r).value, InAll(Enforced(cs, policy), clause), sortFields, clause))
    decreases |cs|
  {
    hide SplitOrderBy, Narrows, ScopeOf, Scoped, PlainKeys, TrimSpace;
    if cs != [] {
      if cs[0].Unenforced? || ScopeOf(cs[0].projects, policy).keys == [] {
        ConstrainMeans(cs[1..], policy, params, sortFields, clause);
      } else {
        var keys := ScopeOf(cs[0].projects, policy).keys;
        var lists, rest := Enforced(cs, policy), Enforced(cs[1..], policy);
        assert lists[0] == keys && lists[1..] == rest;
        assert AllPlain(rest) by { assert forall i :: 0 <= i < |rest| ==> rest[i] == lists[i + 1]; }
        var next := ApplyScope(params, keys, sortFields).value;
        OneScope(JqlOf(params).value, keys, sortFields, clause);
        ConstrainMeans(cs[1..], policy, next, sortFields, clause);
        if rest != [] {
          var r := Constrain(cs, policy, params, sortFields).value;
          NarrowsTwice(JqlOf(params).value, JqlOf(next).value, JqlOf(r).value,
                       clause(ProjectTokens(keys)), InAll(rest, clause), sortFields, clause);
        }
      }
    }
  }

  /** Every justified call of an operation that enforces a project scope: its jql
      means the request's and all the scopes, with the request's ORDER BY. */
  lemma CallJqlIsScoped(st: Installed, req: Request, call: Call, pats: Patterns, up: string -> bool,
      clause: seq<Token> -> bool)
    requires Justified(st, req, call, pats, up)
    requires var lists := Enforced(st.reg.operations[req.op].constraints, st.cfg.workspaces[req.workspace].policy);
      lists != [] && AllPlain(lists)
    ensures var lists := Enforced(st.reg.operations[req.op].constraints, st.cfg.workspaces[req.workspace].policy);
      && JqlOf(req.body.value).Some? && JqlOf(call.params).Some?
      && Narrows(JqlOf(req.body.value).value, JqlOf(call.params).value, InAll(lists, clause), pats.sortFields, clause)
  {
    hide Granted, ValidParams, ResolveEnv, Narrows, PlainKeys, ScopeOf, Constrain, Enforced, InAll, ChannelAllowed;
    var op, policy := st.reg.operations[req.op], st.cfg.workspaces[req.workspace].policy;
    ConstrainMeans(op.constraints, policy, req.body.value, pats.sortFields, clause);
  }
}
