/** Requests interleaved with reloads, internal/server/server.go: each request
    reads the installed pair in its own steps, a reload swaps it in between. */
module PipelineRuns {
  import opened Strings
  import opened Validation
  import opened Pipeline

  /** Where a request stands, with the variables executeOp holds by then. */
  datatype Stage =
    | Arrived
    | Authentic
    | Loaded(st: Installed)
    | Entered(st: Installed, ws: Workspace, op: Operation)
    | Valid(st: Installed, ws: Workspace, op: Operation, params: Values)
    | Constrained(st: Installed, ws: Workspace, op: Operation, params: Values)
    | Selected(st: Installed, ws: Workspace, op: Operation, params: Values)
    | Open(st: Installed, ws: Workspace, op: Operation, params: Values)
    | Finished(reply: Reply)

  /** `loaded`: the pair the request's load read; `asked`: the answers its tunnel
      check got. */
  datatype Proc = Proc(req: Request, stage: Stage, loaded: Option<Installed>, asked: Option<string -> bool>)

  /** The installed pair, and the requests by number. */
  datatype State = State(installed: Installed, procs: map<nat, Proc>)

  datatype Event =
    | Arrive(pid: nat, req: Request)
    | Step(pid: nat, up: string -> bool)
    | Reload(pair: Installed)

  function Initial(pair: Installed): State { State(pair, map[]) }

  /** A request's next step. Only authentication and the load read what is
      installed at that moment, only the tunnel check asks which tunnels are up. */
  function Advance(installed: Installed, req: Request, stage: Stage, pats: Patterns, up: string -> bool): Stage {
    match stage
    case Arrived =>
      if AgentBy(installed.cfg.agents, req.tokenSha).None? then Finished(Denied("authentication")) else Authentic
    case Authentic => Loaded(installed)
    case Loaded(st) =>
      if !Enter(st, req).Elsewhere? then Finished(Enter(st, req))
      else Entered(st, st.cfg.workspaces[req.workspace], st.reg.operations[req.op])
    case Entered(st, ws, op) =>
      if req.body.None? then Finished(BadBody)
      else if !ValidParams(op, req.body.value, ws.policy, pats.matches) then Finished(Denied("validation"))
      else Valid(st, ws, op, req.body.value)
    case Valid(st, ws, op, params) =>
      var constrained := Constrain(op.constraints, ws.policy, params, pats.sortFields);
      if constrained.None? then Finished(Denied("constraint"))
      else if !ChannelAllowed(ws, op, constrained.value) then Finished(Denied("scope"))
      else Constrained(st, ws, op, constrained.value)
    case Constrained(st, ws, op, params) =>
      if !EnvSelected(ws, op, Defaulted(op, params)) then Finished(Denied("validation"))
      else Selected(st, ws, op, Defaulted(op, params))
    case Selected(st, ws, op, params) =>
      if !TunnelOpen(st, ws, op, params, up) then Finished(Denied("tunnel")) else Open(st, ws, op, params)
    case Open(st, ws, op, params) => Finished(Connect(ws, req.op, op, params, pats))
    case Finished(_) => stage
  }

  function Moved(p: Proc, installed: Installed, pats: Patterns, up: string -> bool): Proc {
    Proc(p.req, Advance(installed, p.req, p.stage, pats, up),
         if p.stage.Authentic? then Some(installed) else p.loaded,
         if p.stage.Selected? then Some(up) else p.asked)
  }

  function Next(s: State, e: Event, pats: Patterns): State {
    match e
    case Arrive(pid, req) => if pid in s.procs then s else s.(procs := s.procs[pid := Proc(req, Arrived, None, None)])
    case Step(pid, up) =>
      if pid !in s.procs then s else s.(procs := s.procs[pid := Moved(s.procs[pid], s.installed, pats, up)])
    case Reload(pair) => s.(installed := pair)
  }

  function After(s: State, es: seq<Event>, pats: Patterns): State
    decreases |es|
  {
    if es == [] then s else After(Next(s, es[0], pats), es[1..], pats)
  }

  // ----- each request behaves as if decided at once

  /** The reply is the decision of the pair with the answers the tunnel check got; a
      reply given before that check does not depend on any answers. */
  ghost predicate Decided(st: Installed, req: Request, pats: Patterns, asked: Option<string -> bool>, reply: Reply) {
    if asked.Some? then reply == Decide(st, req, pats, asked.value)
    else !reply.Called? && forall up :: reply == Decide(st, req, pats, up)
  }

  ghost predicate Past(p: Proc, st: Installed, ws: Workspace, op: Operation) {
    && p.loaded == Some(st) && Enter(st, p.req).Elsewhere?
    && ws == st.cfg.workspaces[p.req.workspace] && op == st.reg.operations[p.req.op]
  }

  ghost predicate Accepted(p: Proc, ws: Workspace, op: Operation, pats: Patterns) {
    p.req.body.Some? && ValidParams(op, p.req.body.value, ws.policy, pats.matches)
  }

  ghost predicate ProcInv(p: Proc, pats: Patterns) {
    match p.stage
    case Arrived => p.loaded.None? && p.asked.None?
    case Authentic => p.loaded.None? && p.asked.None?
    case Loaded(st) => p.loaded == Some(st) && p.asked.None?
    case Entered(st, ws, op) => Past(p, st, ws, op) && p.asked.None?
    case Valid(st, ws, op, params) =>
      Past(p, st, ws, op) && p.asked.None? && Accepted(p, ws, op, pats) && params == p.req.body.value
    case Constrained(st, ws, op, params) =>
      && Past(p, st, ws, op) && p.asked.None? && Accepted(p, ws, op, pats) && ChannelAllowed(ws, op, params)
      && Constrain(op.constraints, ws.policy, p.req.body.value, pats.sortFields) == Some(params)
    case Selected(st, ws, op, params) =>
      && Past(p, st, ws, op) && p.asked.None? && Accepted(p, ws, op, pats)
      && ParamsFollow(op, ws, p.req.body.value, params, pats) && EnvSelected(ws, op, params)
    case Open(st, ws, op, params) =>
      && Past(p, st, ws, op) && Accepted(p, ws, op, pats)
      && ParamsFollow(op, ws, p.req.body.value, params, pats) && EnvSelected(ws, op, params)
      && p.asked.Some? && TunnelOpen(st, ws, op, params, p.asked.value)
    case Finished(reply) =>
      if p.loaded.None? then reply == Denied("authentication") && p.asked.None?
      else Decided(p.loaded.value, p.req, pats, p.asked, reply)
  }

  ghost predicate Inv(s: State, pats: Patterns) {
    forall pid :: pid in s.procs ==> ProcInv(s.procs[pid], pats)
  }

  /** What Decide is once the request has entered. */
  lemma DecideEntered(st: Installed, ws: Workspace, op: Operation, req: Request, pats: Patterns, up: string -> bool)
    requires Enter(st, req).Elsewhere?
    requires ws == st.cfg.workspaces[req.workspace] && op == st.reg.operations[req.op]
    ensures Decide(st, req, pats, up) == DecideFrom(st, ws, op, req, pats, up)
  {
    hide ValidParams, Constrain, ChannelAllowed, EnvSelected, TunnelOpen, Connect;
  }

  function DecideFrom(st: Installed, ws: Workspace, op: Operation, req: Request, pats: Patterns,
      up: string -> bool): Reply {
    if req.body.None? then BadBody
    else if !ValidParams(op, req.body.value, ws.policy, pats.matches) then Denied("validation")
    else DecideValid(st, ws, op, req, Constrain(op.constraints, ws.policy, req.body.value, pats.sortFields), pats, up)
  }

  function DecideValid(
      st: Installed, ws: Workspace, op: Operation, req: Request, constrained: Option<Values>,
      pats: Patterns, up: string -> bool): Reply
  {
    if constrained.None? then Denied("constraint")
    else if !ChannelAllowed(ws, op, constrained.value) then Denied("scope")
    else if !EnvSelected(ws, op, Defaulted(op, constrained.value)) then Denied("validation")
    else if !TunnelOpen(st, ws, op, Defaulted(op, constrained.value), up) then Denied("tunnel")
    else Connect(ws, req.op, op, Defaulted(op, constrained.value), pats)
  }

  lemma DecideDenied(st: Installed, req: Request, pats: Patterns, up: string -> bool)
    requires !Enter(st, req).Elsewhere?
    ensures Decide(st, req, pats, up) == Enter(st, req)
  {
  }

  /** Connect and the checks after the load know where a call comes from. */
  lemma EnterNeverCalls(st: Installed, req: Request)
    ensures !Enter(st, req).Called?
  {
  }

  lemma MoveKeepsInv(p: Proc, installed: Installed, pats: Patterns, up: string -> bool)
    requires ProcInv(p, pats)
    ensures ProcInv(Moved(p, installed, pats, up), pats)
  {
    hide *;
    match p.stage
    case Arrived => FirstSteps(p, installed, pats, up);
    case Authentic => FirstSteps(p, installed, pats, up);
    case Loaded(st) => EnterStep(p, installed, pats, up);
    case Entered(st, ws, op) => ValidateStep(p, installed, pats, up);
    case Valid(st, ws, op, params) => ConstrainStep(p, installed, pats, up);
    case Constrained(st, ws, op, params) => SelectStep(p, installed, pats, up);
    case Selected(st, ws, op, params) => TunnelStep(p, installed, pats, up);
    case Open(st, ws, op, params) => ConnectStep(p, installed, pats, up);
    case Finished(_) => FinishedStays(p, installed, pats, up);
  }

  lemma FirstSteps(p: Proc, installed: Installed, pats: Patterns, up: string -> bool)
    requires ProcInv(p, pats) && (p.stage.Arrived? || p.stage.Authentic?)
    ensures ProcInv(Moved(p, installed, pats, up), pats)
  {
    hide ValidParams, Constrain, ChannelAllowed, EnvSelected, TunnelOpen, Connect, Decide, Enter, AgentBy;
  }

  lemma EnterStep(p: Proc, installed: Installed, pats: Patterns, up: string -> bool)
    requires ProcInv(p, pats) && p.stage.Loaded?
    ensures ProcInv(Moved(p, installed, pats, up), pats)
  {
    hide ValidParams, Constrain, ChannelAllowed, EnvSelected, TunnelOpen, Connect, Decide, Enter, AgentBy;
    var st := p.stage.st;
    EnterNeverCalls(st, p.req);
    if !Enter(st, p.req).Elsewhere? {
      forall any: string -> bool ensures Decide(st, p.req, pats, any) == Enter(st, p.req) {
        DecideDenied(st, p.req, pats, any);
      }
    }
  }

  lemma ValidateStep(p: Proc, installed: Installed, pats: Patterns, up: string -> bool)
    requires ProcInv(p, pats) && p.stage.Entered?
    ensures ProcInv(Moved(p, installed, pats, up), pats)
  {
    hide ValidParams, Constrain, ChannelAllowed, EnvSelected, TunnelOpen, Connect, Decide, Enter, AgentBy;
    var st, ws, op := p.stage.st, p.stage.ws, p.stage.op;
    forall any: string -> bool ensures Decide(st, p.req, pats, any) == DecideFrom(st, ws, op, p.req, pats, any) {
      DecideEntered(st, ws, op, p.req, pats, any);
    }
  }

  lemma ConstrainStep(p: Proc, installed: Installed, pats: Patterns, up: string -> bool)
    requires ProcInv(p, pats) && p.stage.Valid?
    ensures ProcInv(Moved(p, installed, pats, up), pats)
  {
    hide ValidParams, Constrain, ChannelAllowed, EnvSelected, TunnelOpen, Connect, Decide, Enter, AgentBy;
    var st, ws, op := p.stage.st, p.stage.ws, p.stage.op;
    forall any: string -> bool ensures Decide(st, p.req, pats, any) == DecideFrom(st, ws, op, p.req, pats, any) {
      DecideEntered(st, ws, op, p.req, pats, any);
    }
  }

  lemma SelectStep(p: Proc, installed: Installed, pats: Patterns, up: string -> bool)
    requires ProcInv(p, pats) && p.stage.Constrained?
    ensures ProcInv(Moved(p, installed, pats, up), pats)
  {
    hide ValidParams, Constrain, ChannelAllowed, EnvSelected, TunnelOpen, Connect, Decide, Enter, AgentBy;
    var st, ws, op := p.stage.st, p.stage.ws, p.stage.op;
    forall any: string -> bool ensures Decide(st, p.req, pats, any) == DecideFrom(st, ws, op, p.req, pats, any) {
      DecideEntered(st, ws, op, p.req, pats, any);
    }
  }

  lemma TunnelStep(p: Proc, installed: Installed, pats: Patterns, up: string -> bool)
    requires ProcInv(p, pats) && p.stage.Selected?
    ensures ProcInv(Moved(p, installed, pats, up), pats)
  {
    hide ValidParams, Constrain, ChannelAllowed, EnvSelected, TunnelOpen, Connect, Decide, Enter, AgentBy;
    DecideEntered(p.stage.st, p.stage.ws, p.stage.op, p.req, pats, up);
  }

  lemma ConnectStep(p: Proc, installed: Installed, pats: Patterns, up: string -> bool)
    requires ProcInv(p, pats) && p.stage.Open?
    ensures ProcInv(Moved(p, installed, pats, up), pats)
  {
    hide ValidParams, Constrain, ChannelAllowed, EnvSelected, TunnelOpen, Connect, Decide, Enter, AgentBy;
    DecideEntered(p.stage.st, p.stage.ws, p.stage.op, p.req, pats, p.asked.value);
  }

  lemma FinishedStays(p: Proc, installed: Installed, pats: Patterns, up: string -> bool)
    requires p.stage.Finished?
    ensures Moved(p, installed, pats, up) == p
  {
  }

  lemma NextKeepsInv(s: State, e: Event, pats: Patterns)
    requires Inv(s, pats)
    ensures Inv(Next(s, e, pats), pats)
  {
    hide ProcInv, Moved;
    match e
    case Arrive(pid, req) => ArrivedInv(req, pats);
    case Step(pid, up) => if pid in s.procs { MoveKeepsInv(s.procs[pid], s.installed, pats, up); }
    case Reload(pair) =>
  }

  lemma ArrivedInv(req: Request, pats: Patterns)
    ensures ProcInv(Proc(req, Arrived, None, None), pats)
  {
  }

  lemma {:induction false} RunKeepsInv(s: State, es: seq<Event>, pats: Patterns)
    requires Inv(s, pats)
    ensures Inv(After(s, es, pats), pats)
    decreases |es|
  {
    if es != [] {
      NextKeepsInv(s, es[0], pats);
      RunKeepsInv(Next(s, es[0], pats), es[1..], pats);
    }
  }

  // ----- where the pair and the answers come from

  lemma {:induction false} AfterSnoc(s: State, es: seq<Event>, e: Event, pats: Patterns)
    ensures After(s, es + [e], pats) == Next(After(s, es, pats), e, pats)
    decreases |es|
  {
    var all := es + [e];
    if es == [] {
      assert all == [e] && all[1..] == [];
    } else {
      assert all[0] == es[0] && all[1..] == es[1..] + [e];
      AfterSnoc(Next(s, es[0], pats), es[1..], e, pats);
    }
  }

  /** Event k is a step of the request, taken from a state of the run. */
  ghost predicate StepAt(pair: Installed, es: seq<Event>, pats: Patterns, pid: nat, k: nat) {
    && k < |es| && es[k].Step? && es[k].pid == pid && pid in After(Initial(pair), es[..k], pats).procs
  }

  /** The state in which event k is taken. */
  function Before(pair: Installed, es: seq<Event>, pats: Patterns, k: nat): State
    requires k <= |es|
  {
    After(Initial(pair), es[..k], pats)
  }

  ghost predicate LoadsAt(pair: Installed, es: seq<Event>, pats: Patterns, pid: nat, k: nat) {
    StepAt(pair, es, pats, pid, k) && Before(pair, es, pats, k).procs[pid].stage.Authentic?
  }

  ghost predicate AsksAt(pair: Installed, es: seq<Event>, pats: Patterns, pid: nat, k: nat) {
    StepAt(pair, es, pats, pid, k) && Before(pair, es, pats, k).procs[pid].stage.Selected?
  }

  /** Authentication found no agent with the token in the pair installed then. */
  ghost predicate RefusedAt(pair: Installed, es: seq<Event>, pats: Patterns, pid: nat, k: nat) {
    && StepAt(pair, es, pats, pid, k) && Before(pair, es, pats, k).procs[pid].stage.Arrived?
    && var s := Before(pair, es, pats, k); AgentBy(s.installed.cfg.agents, s.procs[pid].req.tokenSha).None?
  }

  /** Everything a request has recorded was read by a step of its own. */
  ghost predicate Recorded(pair: Installed, es: seq<Event>, pats: Patterns, pid: nat, p: Proc) {
    && (p.loaded.Some? ==> LoadedIn(pair, es, pats, pid, p.loaded.value))
    && (p.asked.Some? ==> p.loaded.Some? && AskedIn(pair, es, pats, pid, p.loaded.value, p.asked.value))
    && (p.stage.Finished? && p.loaded.None? ==> exists k: nat :: RefusedAt(pair, es, pats, pid, k))
  }

  ghost predicate LoadedIn(pair: Installed, es: seq<Event>, pats: Patterns, pid: nat, st: Installed) {
    exists k: nat :: LoadsAt(pair, es, pats, pid, k) && Before(pair, es, pats, k).installed == st
  }

  /** The answers came from the tunnel check, the pair from the load before it. */
  ghost predicate AskedIn(pair: Installed, es: seq<Event>, pats: Patterns, pid: nat, st: Installed,
      up: string -> bool) {
    exists i: nat, k: nat :: i < k && LoadsAt(pair, es, pats, pid, i) && Before(pair, es, pats, i).installed == st &&
      AsksAt(pair, es, pats, pid, k) && es[k] == Step(pid, up)
  }

  lemma SameBefore(pair: Installed, es: seq<Event>, e: Event, pats: Patterns, pid: nat, k: nat)
    requires k < |es|
    ensures (es + [e])[k] == es[k] && Before(pair, es + [e], pats, k) == Before(pair, es, pats, k)
    ensures StepAt(pair, es, pats, pid, k) ==> StepAt(pair, es + [e], pats, pid, k)
  {
    assert (es + [e])[..k] == es[..k];
  }

  lemma StillRecorded(pair: Installed, es: seq<Event>, e: Event, pats: Patterns, pid: nat, p: Proc)
    requires Recorded(pair, es, pats, pid, p)
    ensures Recorded(pair, es + [e], pats, pid, p)
  {
    hide After, AgentBy, StepAt, Before;
    var all := es + [e];
    forall k: nat | StepAt(pair, es, pats, pid, k)
      ensures k < |es| && StepAt(pair, all, pats, pid, k) && all[k] == es[k]
      ensures Before(pair, all, pats, k) == Before(pair, es, pats, k)
    {
      StepInRange(pair, es, pats, pid, k);
      SameBefore(pair, es, e, pats, pid, k);
    }
    if p.loaded.Some? {
      var k: nat :| LoadsAt(pair, es, pats, pid, k) && Before(pair, es, pats, k).installed == p.loaded.value;
      assert LoadsAt(pair, all, pats, pid, k);
    }
    if p.asked.Some? {
      var i: nat, k: nat :|
        && i < k && LoadsAt(pair, es, pats, pid, i) && Before(pair, es, pats, i).installed == p.loaded.value
        && AsksAt(pair, es, pats, pid, k) && es[k] == Step(pid, p.asked.value);
      assert LoadsAt(pair, all, pats, pid, i) && AsksAt(pair, all, pats, pid, k);
    }
    if p.stage.Finished? && p.loaded.None? {
      var k: nat :| RefusedAt(pair, es, pats, pid, k);
      assert RefusedAt(pair, all, pats, pid, k);
    }
  }

  lemma StepInRange(pair: Installed, es: seq<Event>, pats: Patterns, pid: nat, k: nat)
    requires StepAt(pair, es, pats, pid, k)
    ensures k < |es| && es[k].Step? && pid in Before(pair, es, pats, k).procs
  {
  }

  lemma StepRecords(pair: Installed, es: seq<Event>, pats: Patterns, pid: nat, up: string -> bool)
    requires var s := After(Initial(pair), es, pats);
      pid in s.procs && ProcInv(s.procs[pid], pats) && Recorded(pair, es, pats, pid, s.procs[pid])
    ensures var s := After(Initial(pair), es, pats);
      Recorded(pair, es + [Step(pid, up)], pats, pid, Moved(s.procs[pid], s.installed, pats, up))
  {
    hide After, Enter, Connect, Constrain, ValidParams, ChannelAllowed, EnvSelected, TunnelOpen, Decide, AgentBy;
    var s, all, n := After(Initial(pair), es, pats), es + [Step(pid, up)], |es|;
    assert all[..n] == es && all[n] == Step(pid, up);
    assert Before(pair, all, pats, n) == s && StepAt(pair, all, pats, pid, n);
    StillRecorded(pair, es, Step(pid, up), pats, pid, s.procs[pid]);
    var p := s.procs[pid];
    if p.stage.Authentic? { assert LoadsAt(pair, all, pats, pid, n); }
    if p.stage.Selected? {
      var i: nat :| LoadsAt(pair, all, pats, pid, i) && Before(pair, all, pats, i).installed == p.loaded.value;
      assert i < n;
      assert AsksAt(pair, all, pats, pid, n);
    }
    if p.stage.Arrived? && Moved(p, s.installed, pats, up).stage.Finished? {
      assert RefusedAt(pair, all, pats, pid, n);
    }
  }

  lemma {:induction false} RunRecords(pair: Installed, es: seq<Event>, pats: Patterns, pid: nat)
    requires pid in After(Initial(pair), es, pats).procs
    ensures Recorded(pair, es, pats, pid, After(Initial(pair), es, pats).procs[pid])
    decreases |es|
  {
    hide Recorded, ProcInv, Moved;
    if es != [] {
      var n := |es| - 1;
      var prefix, e := es[..n], es[n];
      assert es == prefix + [e];
      AfterSnoc(Initial(pair), prefix, e, pats);
      var s := After(Initial(pair), prefix, pats);
      if pid in s.procs {
        RunRecords(pair, prefix, pats, pid);
        RunKeepsInv(Initial(pair), prefix, pats);
        if e.Step? && e.pid == pid {
          StepRecords(pair, prefix, pats, pid, e.up);
        } else {
          StillRecorded(pair, prefix, e, pats, pid, s.procs[pid]);
        }
      } else {
        NothingRecorded(pair, es, pats, pid, After(Initial(pair), es, pats).procs[pid]);
      }
    }
  }

  lemma NothingRecorded(pair: Installed, es: seq<Event>, pats: Patterns, pid: nat, p: Proc)
    requires p.stage.Arrived? && p.loaded.None? && p.asked.None?
    ensures Recorded(pair, es, pats, pid, p)
  {
  }

  // ----- the main results

  /** Whatever reloads come in between, a reply is the decision of the one pair that was
      installed when the request's own load ran, with the answers that its own tunnel
      check got; or the request was refused for lack of an agent. */
  lemma ReplyIsOneDecision(pair: Installed, es: seq<Event>, pats: Patterns, pid: nat)
    requires pid in After(Initial(pair), es, pats).procs
    requires After(Initial(pair), es, pats).procs[pid].stage.Finished?
    ensures var p := After(Initial(pair), es, pats).procs[pid];
      || (p.stage.reply == Denied("authentication") && exists k: nat :: RefusedAt(pair, es, pats, pid, k))
      || (&& p.loaded.Some? && LoadedIn(pair, es, pats, pid, p.loaded.value)
          && Decided(p.loaded.value, p.req, pats, p.asked, p.stage.reply)
          && (p.asked.Some? ==> AskedIn(pair, es, pats, pid, p.loaded.value, p.asked.value)))
  {
    hide After, Decided;
    RunKeepsInv(Initial(pair), es, pats);
    InitialInv(pair, pats);
    RunRecords(pair, es, pats, pid);
  }

  lemma InitialInv(pair: Installed, pats: Patterns)
    ensures Inv(Initial(pair), pats)
  {
  }

  /** Every upstream call is justified by the one pair that was installed when the
      request's load ran, and by the answers that its tunnel check then got. */
  lemma CallsAreJustified(pair: Installed, es: seq<Event>, pats: Patterns, pid: nat)
    requires pid in After(Initial(pair), es, pats).procs
    requires var stage := After(Initial(pair), es, pats).procs[pid].stage; stage.Finished? && stage.reply.Called?
    ensures var p := After(Initial(pair), es, pats).procs[pid];
      exists i: nat, k: nat :: i < k && LoadsAt(pair, es, pats, pid, i) && AsksAt(pair, es, pats, pid, k) &&
        Justified(Before(pair, es, pats, i).installed, p.req, p.stage.reply.call, pats, es[k].up)
  {
    hide After, Decide, Justified;
    ReplyIsOneDecision(pair, es, pats, pid);
    var p := After(Initial(pair), es, pats).procs[pid];
    var i: nat, k: nat :| i < k && LoadsAt(pair, es, pats, pid, i) &&
      Before(pair, es, pats, i).installed == p.loaded.value &&
      AsksAt(pair, es, pats, pid, k) && es[k] == Step(pid, p.asked.value);
    CallIffJustified(p.loaded.value, p.req, pats, es[k].up, p.stage.reply.call);
  }
}
