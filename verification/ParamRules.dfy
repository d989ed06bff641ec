/** What a parameter definition and a project scope ask for, rule by rule
    (internal/policy/registry.go). */
module ParamRules {
  import opened Strings
  import opened Validation

  // ----- types and bounds

  lemma TextRules(def: ParamDef, v: Val, policy: Policy, matches: (string, string) -> bool)
    requires def.kind == TString
    ensures Accepts(def, v, policy, matches) ==> v.Text?
    ensures v.Text? && def.pattern == "" ==>
      (Accepts(def, v, policy, matches) <==> def.maxLen <= 0 || |v.s| <= def.maxLen)
    ensures v.Text? && def.pattern != "" && def.maxLen <= 0 ==>
      (Accepts(def, v, policy, matches) <==> matches(def.pattern, v.s))
  {
  }

  lemma NumberRules(def: ParamDef, v: Val, policy: Policy, matches: (string, string) -> bool)
    requires def.kind == TInt
    ensures Accepts(def, v, policy, matches) ==> v.Number?
    ensures v.Number? ==> (Accepts(def, v, policy, matches) <==> def.max <= 0 || v.n <= def.max as real)
    ensures Accepts(def, Number(def.max as real), policy, matches)
  {
  }

  /** An object may have the listed keys only; without a list any. */
  lemma ObjectRules(def: ParamDef, v: Val, policy: Policy, matches: (string, string) -> bool)
    requires def.kind == TObject
    ensures Accepts(def, v, policy, matches) ==> v.Object?
    ensures v.Object? ==> (Accepts(def, v, policy, matches) <==>
      (def.keys == None || v.keys <= set i | 0 <= i < |def.keys.value| :: def.keys.value[i]))
  {
  }

  lemma OtherRules(def: ParamDef, v: Val, policy: Policy, matches: (string, string) -> bool)
    ensures def.kind == TBool ==> (Accepts(def, v, policy, matches) <==> v.Flag?)
    ensures def.kind == TOther ==> Accepts(def, v, policy, matches)
    ensures def.kind == TEnum && Accepts(def, v, policy, matches) ==> v.Text?
  {
  }

  /** A choice is one of the listed values; without a list any text. */
  lemma ValueRules(def: ParamDef, s: string, policy: Policy, matches: (string, string) -> bool)
    requires def.kind == TEnum && !HasPrefix(def.from, "$workspace.")
    ensures Accepts(def, Text(s), policy, matches) <==> def.values == None || s in def.values.value
  {
  }

  /** A choice from a workspace list: one of that list, if it is one of the nine and the
      workspace has set it to something; otherwise any text. */
  lemma WorkspaceRules(def: ParamDef, field: string, s: string, policy: Policy, matches: (string, string) -> bool)
    requires def.kind == TEnum && def.from == "$workspace." + field
    ensures field !in policy || policy[field] == [] ==> Accepts(def, Text(s), policy, matches)
    ensures field in policy && policy[field] != [] && IsList(field) ==>
      (Accepts(def, Text(s), policy, matches) <==> s in policy[field])
    ensures !IsList(field) ==> Accepts(def, Text(s), policy, matches)
  {
    assert def.from[..|"$workspace."|] == "$workspace." && def.from[|"$workspace."|..] == field;
  }

  predicate IsList(field: string) {
    || field == "jira_projects" || field == "bitbucket_repos" || field == "gitlab_projects" || field == "github_repos"
    || field == "pg_allowed_tables" || field == "slack_channels" || field == "kibana_clusters"
    || field == "kibana_indices" || field == "clockify_projects"
  }

  // ----- loosening

  ghost predicate Looser(a: ParamDef, b: ParamDef) {
    && b.kind == a.kind && b.from == a.from && (b.pattern == "" || b.pattern == a.pattern)
    && (b.max <= 0 || 0 < a.max <= b.max) && (b.maxLen <= 0 || 0 < a.maxLen <= b.maxLen)
    && (b.values.None? || (a.values.Some? && forall x :: x in a.values.value ==> x in b.values.value))
    && (b.keys.None? || (a.keys.Some? && forall x :: x in a.keys.value ==> x in b.keys.value))
  }

  /** Loosening a definition never refuses more. */
  lemma LooserAcceptsMore(a: ParamDef, b: ParamDef, v: Val, policy: Policy, matches: (string, string) -> bool)
    requires Looser(a, b) && Accepts(a, v, policy, matches)
    ensures Accepts(b, v, policy, matches)
  {
  }

  // ----- the projects of a scope

  /** A literal list without a non-empty text refuses the request; any other enforces
      exactly its non-empty texts. */
  lemma LiteralScope(items: seq<Option<string>>, policy: Policy)
    ensures var scope := ScopeOf(Literal(items), policy);
      && (scope.Refused? <==> forall x :: Some(x) in items ==> x == "")
      && (scope.Keys? ==> forall x :: x in scope.keys <==> Some(x) in items && x != "")
  {
    forall x ensures x in NonEmpty(items) <==> Some(x) in items && x != "" { NonEmptyHas(items, x); }
    if NonEmpty(items) != [] { assert NonEmpty(items)[0] in NonEmpty(items); }
  }

  lemma {:induction false} NonEmptyHas(items: seq<Option<string>>, x: string)
    ensures x in NonEmpty(items) <==> Some(x) in items && x != ""
  {
    if items != [] {
      NonEmptyHas(items[1..], x);
      assert items == [items[0]] + items[1..];
    }
  }

  /** They keep their order. */
  lemma {:induction false} NonEmptyConcat(a: seq<Option<string>>, b: seq<Option<string>>)
    ensures NonEmpty(a + b) == NonEmpty(a) + NonEmpty(b)
  {
    if a == [] {
      assert a + b == b;
    } else {
      assert (a + b)[1..] == a[1..] + b;
      NonEmptyConcat(a[1..], b);
    }
  }

  /** Only two lists other than jira_projects can be named; an unset one, and every other
      reading, falls back to jira_projects. */
  lemma WorkspaceScope(p: Projects, policy: Policy)
    requires !p.Literal?
    ensures var jira := if "jira_projects" in policy then policy["jira_projects"] else [];
      ScopeOf(p, policy) ==
        if p == FromWorkspace("$workspace.bitbucket_repos") && "bitbucket_repos" in policy then
          Keys(policy["bitbucket_repos"])
        else if p == FromWorkspace("$workspace.pg_allowed_tables") && "pg_allowed_tables" in policy then
          Keys(policy["pg_allowed_tables"])
        else Keys(jira)
  {
  }
}
