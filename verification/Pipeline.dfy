/** One operation request of internal/server/server.go: executeOp up to the
    connector, against one configuration and registry. */
module Pipeline {
  import opened Strings
  import opened ClosestOps
  import opened Validation
  import opened PathExpansion
  import opened PathValues

  // ----- configuration and registry

  /** `siteValues`: what the site.* placeholders of a path stand for. */
  datatype Environment = Environment(
    baseUrl: string, proxyHost: string, authType: string, siteValues: map<string, string>, requiresTunnel: string)

  datatype Site = Site(disabled: bool, environments: map<string, Environment>, defaultEnv: string)

  datatype Workspace = Workspace(sites: map<string, Site>, policy: Policy)

  datatype Agent = Agent(tokenSha: string, grants: seq<Grant>)

  datatype Config = Config(
    agents: seq<Agent>, workspaces: map<string, Workspace>, roles: map<string, seq<string>>, tunnels: set<string>)

  /** `hasChecker`: a tunnel checker is attached. */
  datatype Registry = Registry(operations: map<string, Operation>, hasChecker: bool)

  datatype Installed = Installed(cfg: Config, reg: Registry)

  /** `body` is None when the request body is not a JSON object (or too large). */
  datatype Request = Request(tokenSha: string, workspace: string, op: string, body: Option<Values>)

  /** What the code relies on: the regular expressions, and Go's formatting of values. */
  datatype Patterns = Patterns(matches: (string, string) -> bool, sortFields: string -> bool, format: Val -> string)

  function AgentBy(agents: seq<Agent>, sha: string): (r: Option<Agent>)
    ensures r.Some? <==> exists i :: 0 <= i < |agents| && agents[i].tokenSha == sha
    ensures r.Some? ==> r.value in agents && r.value.tokenSha == sha
  {
    if agents == [] then None
    else if agents[0].tokenSha == sha then Some(agents[0])
    else
      var r := AgentBy(agents[1..], sha);
      assert r.Some? ==> r.value in agents;
      r
  }

  // ----- environments

  function TextParam(params: Values, name: string): string {
    if name in params && params[name].Text? then params[name].s else ""
  }

  function Wanted(site: Site, params: Values): string {
    if TextParam(params, "env") != "" then TextParam(params, "env")
    else if TextParam(params, "cluster") != "" then TextParam(params, "cluster")
    else site.defaultEnv
  }

  /** resolveEnv: the name of the environment a request targets. */
  function ResolveEnv(site: Site, params: Values): (r: Option<string>)
    ensures r.Some? ==> r.value in site.environments
    ensures r.Some? ==>
      Wanted(site, params) == r.value || (Wanted(site, params) == "" && site.environments.Keys == {r.value})
    ensures r.None? ==> Wanted(site, params) !in site.environments || Wanted(site, params) == ""
  {
    var wanted := Wanted(site, params);
    if wanted != "" then (if wanted in site.environments then Some(wanted) else None)
    else if |site.environments| != 1 then None
    else
      OneKey(site.environments.Keys);
      var name :| name in site.environments;
      Some(name)
  }

  lemma OneKey(keys: set<string>)
    requires |keys| == 1
    ensures exists k :: k in keys && keys == {k}
    ensures forall j, k :: j in keys && k in keys ==> j == k
  {
    var k :| k in keys;
    assert |keys - {k}| == 0;
    assert keys == {k};
  }

  // ----- which environment that is

  /** The parameter is absent, no text, or empty. */
  predicate Silent(params: Values, name: string) {
    name in params && params[name].Text? ==> params[name].s == ""
  }

  /** A named environment is the answer if the site has it, and nothing else is. */
  lemma EnvDecides(site: Site, params: Values, e: string)
    requires "env" in params && params["env"] == Text(e) && e != ""
    ensures ResolveEnv(site, params) == if e in site.environments then Some(e) else None
  {
  }

  /** The cluster decides only when no environment is named. */
  lemma ClusterDecides(site: Site, params: Values, c: string)
    requires Silent(params, "env") && "cluster" in params && params["cluster"] == Text(c) && c != ""
    ensures ResolveEnv(site, params) == if c in site.environments then Some(c) else None
  {
  }

  /** The site's default decides only when neither is. */
  lemma DefaultDecides(site: Site, params: Values)
    requires Silent(params, "env") && Silent(params, "cluster") && site.defaultEnv != ""
    ensures ResolveEnv(site, params) == if site.defaultEnv in site.environments then Some(site.defaultEnv) else None
  {
  }

  /** And only without a default does a site's one environment count. */
  lemma SoleDecides(site: Site, params: Values)
    requires Silent(params, "env") && Silent(params, "cluster") && site.defaultEnv == ""
    ensures forall e :: ResolveEnv(site, params) == Some(e) <==> site.environments.Keys == {e}
  {
    forall e ensures ResolveEnv(site, params) == Some(e) <==> site.environments.Keys == {e} {
      if site.environments.Keys == {e} { assert |site.environments| == |site.environments.Keys| == 1; }
      if ResolveEnv(site, params) == Some(e) { OneKey(site.environments.Keys); }
    }
  }

  /** The connectors that pick their environment with resolveEnv. */
  const SELECTS_ENV := {"http-rest", "mcp", "email", "jira-worklog"}

  /** Of those, the ones whose only upstream is the environment resolved. */
  const CALLS_ENV := {"http-rest", "mcp", "email"}

  predicate EnvSelected(ws: Workspace, op: Operation, params: Values) {
    op.connector in SELECTS_ENV && op.site in ws.sites ==> ResolveEnv(ws.sites[op.site], params).Some?
  }

  /** `up` answers the tunnel checker. */
  predicate TunnelOpen(st: Installed, ws: Workspace, op: Operation, params: Values, up: string -> bool) {
    op.site !in ws.sites || ResolveEnv(ws.sites[op.site], params).None? ||
    var tunnel := ws.sites[op.site].environments[ResolveEnv(ws.sites[op.site], params).value].requiresTunnel;
    tunnel == "" || (tunnel in st.cfg.tunnels && st.reg.hasChecker && up(tunnel))
  }

  /** slack_channels, enforced on a channel the request names. */
  predicate ChannelAllowed(ws: Workspace, op: Operation, params: Values) {
    Listed(ws.policy, "slack_channels") != [] && "channel" in op.params && TextParam(params, "channel") != "" ==>
      TextParam(params, "channel") in Listed(ws.policy, "slack_channels")
  }

  // ----- the decision

  /** An upstream call: the environment's name and value, the final parameters, and the
      path where the operation's template gives it. */
  datatype Call = Call(
    op: string, site: string, envName: string, env: Environment, params: Values, path: Option<string>)

  datatype Reply = Denied(stage: string) | BadBody | Failed | Called(call: Call) | Elsewhere

  predicate IsSlackFile(id: string) {
    |id| > 1 && id[0] == 'F' && forall i :: 1 <= i < |id| ==> 'A' <= id[i] <= 'Z' || '0' <= id[i] <= '9'
  }

  /** What the connector asks of the environment and the parameters before its first
      upstream call: an address, and for a Slack file a file id and a session. */
  predicate Usable(op: Operation, env: Environment, params: Values) {
    if op.connector == "email" then true
    else if op.connector == "http-rest" && op.slackFileContent then
      IsSlackFile(TextParam(params, "file")) && env.baseUrl != "" && env.authType == "slack-session"
    else
      (op.connector == "http-rest" && env.proxyHost != "") || (env.baseUrl != "" && env.baseUrl != "-")
  }

  predicate UsesPath(op: Operation) { op.connector == "http-rest" && !op.slackFileContent }

  /** What the path template is filled in with. */
  function PathEnv(op: Operation, env: Environment, params: Values, pats: Patterns): Env {
    Env(env.siteValues, map name | name in params :: pats.format(params[name]),
        set name | name in op.params && op.params[name].multiSegment)
  }

  /** The path of a call; None when a value is refused. */
  function CallPath(op: Operation, env: Environment, params: Values, pats: Patterns): Option<Option<string>> {
    if !UsesPath(op) then Some(None)
    else
      var path := Expand(op.path, PathEnv(op, env, params, pats));
      if path.None? then None else Some(path)
  }

  /** The connector's own look-up of its environment, up to the path of the call. */
  function Connect(ws: Workspace, opID: string, op: Operation, params: Values, pats: Patterns): Reply {
    if op.connector !in CALLS_ENV then Elsewhere
    else if op.site !in ws.sites then Failed
    else
      var name := ResolveEnv(ws.sites[op.site], params);
      if name.None? then Failed
      else
        var env := ws.sites[op.site].environments[name.value];
        if !Usable(op, env, params) then Failed
        else
          var path := CallPath(op, env, params, pats);
          if path.None? then Failed else Called(Call(opID, op.site, name.value, env, params, path.value))
  }

  function Enter(st: Installed, req: Request): Reply {
    if AgentBy(st.cfg.agents, req.tokenSha).None? then Denied("agent")
    else if req.workspace !in st.cfg.workspaces then Denied("workspace")
    else if req.op !in st.reg.operations then Denied("operation")
    else if !HasOp(AgentBy(st.cfg.agents, req.tokenSha).value.grants, st.cfg.roles, req.workspace, req.op) then
      Denied("grant")
    else
      var sites, site := st.cfg.workspaces[req.workspace].sites, st.reg.operations[req.op].site;
      if site in sites && sites[site].disabled then Denied("disabled") else Elsewhere
  }

  /** The whole request, decided at once against one installed pair. */
  function Decide(st: Installed, req: Request, pats: Patterns, up: string -> bool): Reply {
    if !Enter(st, req).Elsewhere? then Enter(st, req)
    else if req.body.None? then BadBody
    else
      var ws, op := st.cfg.workspaces[req.workspace], st.reg.operations[req.op];
      if !ValidParams(op, req.body.value, ws.policy, pats.matches) then Denied("validation")
      else
        var constrained := Constrain(op.constraints, ws.policy, req.body.value, pats.sortFields);
        if constrained.None? then Denied("constraint")
        else if !ChannelAllowed(ws, op, constrained.value) then Denied("scope")
        else
          var params := Defaulted(op, constrained.value);
          if !EnvSelected(ws, op, params) then Denied("validation")
          else if !TunnelOpen(st, ws, op, params, up) then Denied("tunnel")
          else Connect(ws, req.op, op, params, pats)
  }

  method FindAgent(agents: seq<Agent>, sha: string) returns (r: Option<Agent>)
    ensures r == AgentBy(agents, sha)
  {
    for i := 0 to |agents|
      invariant AgentBy(agents, sha) == AgentBy(agents[i..], sha)
    {
      if agents[i].tokenSha == sha { return Some(agents[i]); }
      assert agents[i..][1..] == agents[i + 1..];
    }
    return None;
  }

  method AgentHasOp(st: Config, agent: Agent, workspace: string, op: string) returns (r: bool)
    ensures r == HasOp(agent.grants, st.roles, workspace, op)
  {
    for i := 0 to |agent.grants|
      invariant forall j :: 0 <= j < i ==> !GrantCovers(agent.grants[j], st.roles, workspace, op)
    {
      var grant := agent.grants[i];
      if grant.workspace != workspace { continue; }
      if grant.role !in st.roles { continue; }
      var operations := st.roles[grant.role];
      for k := 0 to |operations|
        invariant forall j :: 0 <= j < k ==> operations[j] != op
      {
        if operations[k] == op { return true; }
      }
    }
    return false;
  }

  /** executeOp with no reload in between; `params` is the request's own map. */
  method ExecuteOp(st: Installed, req: Request, pats: Patterns, up: string -> bool) returns (r: Reply)
    ensures r == Decide(st, req, pats, up)
  {
    hide ValidParams, Constrain, ResolveEnv, HasOp, TunnelOpen, EnvSelected, ChannelAllowed, Connect, AgentBy;
    var agent := FindAgent(st.cfg.agents, req.tokenSha);
    if agent.None? { return Denied("agent"); }
    if req.workspace !in st.cfg.workspaces { return Denied("workspace"); }
    var ws := st.cfg.workspaces[req.workspace];
    if req.op !in st.reg.operations { return Denied("operation"); }
    var op := st.reg.operations[req.op];
    var granted := AgentHasOp(st.cfg, agent.value, req.workspace, req.op);
    if !granted { return Denied("grant"); }
    if op.site in ws.sites && ws.sites[op.site].disabled { return Denied("disabled"); }
    if req.body.None? { return BadBody; }
    var params := new Params(req.body.value);
    var invalid := ValidateParams(op, params.entries, ws.policy, pats.matches);
    if invalid.Some? { return Denied("validation"); }
    var ok := params.CheckConstraints(op, ws.policy, pats.sortFields);
    if !ok { return Denied("constraint"); }
    if !ChannelAllowed(ws, op, params.entries) { return Denied("scope"); }
    params.ApplyDefaults(op);
    if !EnvSelected(ws, op, params.entries) { return Denied("validation"); }
    if !TunnelOpen(st, ws, op, params.entries, up) { return Denied("tunnel"); }
    r := Connect(ws, req.op, op, params.entries, pats);
  }

  // ----- what a call implies

  /** The first agent with the token is granted the operation. */
  ghost predicate Granted(st: Installed, req: Request) {
    exists i :: 0 <= i < |st.cfg.agents| && FirstAgent(st.cfg.agents, req.tokenSha, i)
      && HasOp(st.cfg.agents[i].grants, st.cfg.roles, req.workspace, req.op)
  }

  ghost predicate FirstAgent(agents: seq<Agent>, sha: string, i: nat) {
    i < |agents| && agents[i].tokenSha == sha && forall j :: 0 <= j < i ==> agents[j].tokenSha != sha
  }

  lemma {:induction false} AgentIsFirst(agents: seq<Agent>, sha: string, i: nat)
    requires FirstAgent(agents, sha, i)
    ensures AgentBy(agents, sha) == Some(agents[i])
  {
    if i > 0 {
      assert agents[0].tokenSha != sha;
      assert forall j :: 0 <= j < i - 1 ==> agents[1..][j] == agents[j + 1];
      AgentIsFirst(agents[1..], sha, i - 1);
    }
  }

  lemma {:induction false} FirstExists(agents: seq<Agent>, sha: string) returns (i: nat)
    requires AgentBy(agents, sha).Some?
    ensures FirstAgent(agents, sha, i)
  {
    if agents[0].tokenSha == sha {
      i := 0;
    } else {
      i := FirstExists(agents[1..], sha);
      i := i + 1;
      assert forall j :: 1 <= j < i ==> agents[1..][j - 1] == agents[j];
    }
  }

  /** One installed pair granted the operation, had the site enabled, accepted the
      parameters and applied the constraints, and the environment called is the
      one the final parameters select: in no need of a tunnel, or of one that is
      configured and was up. */
  ghost predicate Justified(st: Installed, req: Request, call: Call, pats: Patterns, up: string -> bool) {
    && Granted(st, req) && call.op == req.op
    && req.workspace in st.cfg.workspaces && req.op in st.reg.operations && req.body.Some?
    && var ws := st.cfg.workspaces[req.workspace]; var op := st.reg.operations[req.op];
      && (op.connector == "http-rest" || op.connector == "mcp" || op.connector == "email")
      && call.site == op.site && op.site in ws.sites && !ws.sites[op.site].disabled
      && ValidParams(op, req.body.value, ws.policy, pats.matches)
      && ParamsFollow(op, ws, req.body.value, call.params, pats)
      && ResolveEnv(ws.sites[op.site], call.params) == Some(call.envName)
      && call.env == ws.sites[op.site].environments[call.envName] && Usable(op, call.env, call.params)
      && CallPath(op, call.env, call.params, pats) == Some(call.path)
      && (call.env.requiresTunnel == "" ||
          (call.env.requiresTunnel in st.cfg.tunnels && st.reg.hasChecker && up(call.env.requiresTunnel)))
  }

  /** The final parameters: the request's, constrained, then defaulted. */
  ghost predicate ParamsFollow(op: Operation, ws: Workspace, body: Values, params: Values, pats: Patterns) {
    var constrained := Constrain(op.constraints, ws.policy, body, pats.sortFields);
    constrained.Some? && ChannelAllowed(ws, op, constrained.value) && params == Defaulted(op, constrained.value)
  }

  /** A request gets as far as an upstream call, its path included, exactly when the call
      is justified; only secrets and body building can still stop it. */
  lemma CallIffJustified(st: Installed, req: Request, pats: Patterns, up: string -> bool, call: Call)
    ensures Decide(st, req, pats, up) == Called(call) <==> Justified(st, req, call, pats, up)
  {
    hide ValidParams, Constrain, HasOp, ChannelAllowed, AgentBy, Usable, CallPath;
    if AgentBy(st.cfg.agents, req.tokenSha).Some? {
      var i := FirstExists(st.cfg.agents, req.tokenSha);
      AgentIsFirst(st.cfg.agents, req.tokenSha, i);
    }
    if Granted(st, req) {
      var i :| 0 <= i < |st.cfg.agents| && FirstAgent(st.cfg.agents, req.tokenSha, i)
        && HasOp(st.cfg.agents[i].grants, st.cfg.roles, req.workspace, req.op);
      AgentIsFirst(st.cfg.agents, req.tokenSha, i);
    }
  }

  /** The path of a justified call has the "?" and "#" of its template's trusted text. */
  lemma CallPathKeepsSeparators(st: Installed, req: Request, call: Call, pats: Patterns, up: string -> bool)
    requires Justified(st, req, call, pats, up) && call.path.Some?
    ensures var op := st.reg.operations[req.op]; var env := PathEnv(op, call.env, call.params, pats);
      Only(call.path.value, {'?', '#'}) == Only(Trusted(op.path, 0, Holes(op.path, 0), env), {'?', '#'})
  {
    hide Granted, ValidParams, ParamsFollow, ResolveEnv, Usable, Expand, Only, Holes;
    var op := st.reg.operations[req.op];
    SeparatorsComeFromTemplate(op.path, PathEnv(op, call.env, call.params, pats));
  }

  /** What an http-rest call's path has at placeholder i: the environment's site value of that
      name, or else the call's own parameter, formatted, as it arrives there. */
  lemma CallPathFilledIn(st: Installed, req: Request, call: Call, pats: Patterns, up: string -> bool, i: nat)
      returns (ps: seq<string>)
    requires Justified(st, req, call, pats, up)
    requires var op := st.reg.operations[req.op]; var hs := Holes(op.path, 0);
      && op.connector == "http-rest" && !op.slackFileContent
      && i < |hs| && hs[i].start < hs[i].end - 2 < |op.path| - 1
    ensures var op := st.reg.operations[req.op]; var h := Holes(op.path, 0)[i]; var name := Name(op.path, h);
      && call.path == Some(Flat(ps)) && 2 * i + 1 < |ps|
      && (name in call.env.siteValues ==> ps[2 * i + 1] == call.env.siteValues[name])
      && (name !in call.env.siteValues && Key(name) in call.params && Bytes(pats.format(call.params[Key(name)])) ==>
            Arrives(op.path, h, pats.format(call.params[Key(name)]), ps[2 * i + 1]))
  {
    hide Granted, ValidParams, ParamsFollow, ResolveEnv, Usable, Pieces, Arrives, Holes, Flat;
    var op := st.reg.operations[req.op];
    var env, hs := PathEnv(op, call.env, call.params, pats), Holes(op.path, 0);
    ps := Pieces(op.path, 0, hs, env).value;
    var name := Name(op.path, hs[i]);
    TheRestStays(op.path, 0, hs, env, i);
    if name !in env.site && Key(name) in env.params && Bytes(env.params[Key(name)]) {
      ValuesArrive(op.path, 0, hs, env, i);
    }
  }

  // ----- what a justified call says about the request

  /** A parameter of the request other than jql is a parameter of the call. */
  lemma CallKeepsParams(st: Installed, req: Request, call: Call, pats: Patterns, up: string -> bool, name: string)
    requires Justified(st, req, call, pats, up) && name != "jql" && name in req.body.value
    ensures name in call.params && call.params[name] == req.body.value[name]
  {
    hide Granted, ValidParams, ChannelAllowed, ResolveEnv, Usable, CallPath, Constrain;
    var op, policy := st.reg.operations[req.op], st.cfg.workspaces[req.workspace].policy;
    ConstrainKeepsOthers(op.constraints, policy, req.body.value, pats.sortFields, name);
  }

  /** The environment called is the one the request names, if it names one. */
  lemma CallEnvIsNamed(st: Installed, req: Request, call: Call, pats: Patterns, up: string -> bool, e: string)
    requires Justified(st, req, call, pats, up) && e != ""
    ensures "env" in req.body.value && req.body.value["env"] == Text(e) ==> call.envName == e
    ensures "env" in call.params && call.params["env"] == Text(e) ==> call.envName == e
    ensures Silent(call.params, "env") && "cluster" in call.params && call.params["cluster"] == Text(e) ==>
      call.envName == e
  {
    hide Granted, ValidParams, ParamsFollow, ResolveEnv, Usable, CallPath;
    var site := st.cfg.workspaces[req.workspace].sites[call.site];
    if "env" in req.body.value { CallKeepsParams(st, req, call, pats, up, "env"); }
    if "env" in call.params && call.params["env"] == Text(e) { EnvDecides(site, call.params, e); }
    if Silent(call.params, "env") && "cluster" in call.params && call.params["cluster"] == Text(e) {
      ClusterDecides(site, call.params, e);
    }
  }

  /** A channel the request names is one of slack_channels, when the operation has a
      channel and the list is not empty. */
  lemma CallChannelIsListed(st: Installed, req: Request, call: Call, pats: Patterns, up: string -> bool, c: string)
    requires Justified(st, req, call, pats, up) && c != ""
    requires "channel" in req.body.value && req.body.value["channel"] == Text(c)
    ensures var policy := st.cfg.workspaces[req.workspace].policy;
      "channel" in st.reg.operations[req.op].params && "slack_channels" in policy && policy["slack_channels"] != [] ==>
        c in policy["slack_channels"]
  {
    hide Granted, ValidParams, ResolveEnv, Usable, CallPath, Constrain;
    var op, policy := st.reg.operations[req.op], st.cfg.workspaces[req.workspace].policy;
    ConstrainKeepsOthers(op.constraints, policy, req.body.value, pats.sortFields, "channel");
  }

  /** Without such a list, a channel or a channel parameter nothing is refused for it. */
  lemma ChannelsUnrestricted(ws: Workspace, op: Operation, params: Values)
    requires "slack_channels" !in ws.policy || ws.policy["slack_channels"] == [] || "channel" !in op.params
      || Silent(params, "channel") || params["channel"].s in ws.policy["slack_channels"]
    ensures ChannelAllowed(ws, op, params)
  {
  }

  /** A call has an address: an http-rest one its environment's own or a proxy's, a Slack
      file one a file id and a session besides, an mcp one its environment's. */
  lemma CallIsAddressed(st: Installed, req: Request, call: Call, pats: Patterns, up: string -> bool)
    requires Justified(st, req, call, pats, up)
    ensures var op := st.reg.operations[req.op];
      && (op.connector == "mcp" ==> call.env.baseUrl != "" && call.env.baseUrl != "-")
      && (op.connector == "http-rest" && !op.slackFileContent ==>
            call.env.proxyHost != "" || (call.env.baseUrl != "" && call.env.baseUrl != "-"))
      && (op.connector == "http-rest" && op.slackFileContent ==>
            && call.env.baseUrl != "" && call.env.authType == "slack-session"
            && "file" in call.params && call.params["file"].Text? && SlackId(call.params["file"].s))
  {
    hide Granted, ValidParams, ParamsFollow, ResolveEnv, CallPath;
    SlackIdIs(TextParam(call.params, "file"));
  }

  lemma SlackIdIs(s: string)
    ensures IsSlackFile(s) <==> SlackId(s)
  {
    if IsSlackFile(s) { assert s == "F" + s[1..]; }
    if SlackId(s) {
      var rest :| s == "F" + rest && rest != "" && forall c :: c in rest ==> 'A' <= c <= 'Z' || '0' <= c <= '9';
      assert s[0] == 'F' && forall i :: 1 <= i < |s| ==> s[i] == rest[i - 1] && rest[i - 1] in rest;
    }
  }

  /** Of the four connectors that pick their environment this way, a request on a known
      site whose environment is not decided is refused before any call; no other is. */
  lemma EnvMustResolve(ws: Workspace, op: Operation, params: Values)
    ensures EnvSelected(ws, op, params) <==>
      || op.site !in ws.sites || ResolveEnv(ws.sites[op.site], params).Some?
      || (op.connector != "http-rest" && op.connector != "mcp" && op.connector != "email" &&
          op.connector != "jira-worklog")
  {
    hide ResolveEnv;
  }

  /** F and at least one upper-case letter or digit after it. */
  ghost predicate SlackId(s: string) {
    exists rest :: s == "F" + rest && rest != "" && forall c :: c in rest ==> 'A' <= c <= 'Z' || '0' <= c <= '9'
  }
}
