/** The secret resolver and its taint registry (internal/secrets/resolver.go). */
module Secrets {
  import opened Strings
  import opened Redaction

  // ----- state and operations

  type Ref = (string, string)  // workspace, name

  datatype Cached = Cached(value: string, resolved: int)

  datatype Answer = Secret(value: string) | NotFound | Empty

  /** What stays fixed: the digest (SHA-256), the derived forms of a secret that
      are registered with it (trimmed, URL- and JSON-escaped), and the cache TTL. */
  datatype Env = Env(digest: string -> string, forms: string -> seq<string>, ttl: int)

  datatype Registry = Registry(seen: set<string>, values: seq<string>)

  datatype State = State(store: map<Ref, string>, cache: map<string, Cached>, taint: Registry)

  function CacheKey(workspace: string, name: string): string {
    workspace + "/" + name
  }

  function CheckEmpty(secret: string): Answer {
    if |secret| <= 1 then Empty else Secret(secret)
  }

  /** What the store itself answers, after the empty-value check. */
  function Direct(store: map<Ref, string>, workspace: string, name: string): Answer {
    if (workspace, name) in store then CheckEmpty(store[(workspace, name)]) else NotFound
  }

  function TaintExact(env: Env, r: Registry, secret: string): Registry {
    if |secret| < MIN_SECRET || env.digest(secret) in r.seen then r
    else Registry(r.seen + {env.digest(secret)}, r.values + [secret])
  }

  function TaintAll(env: Env, r: Registry, secrets: seq<string>): Registry
    decreases secrets
  {
    if secrets == [] then r else TaintAll(env, TaintExact(env, r, secrets[0]), secrets[1..])
  }

  function Taint(env: Env, r: Registry, secret: string): Registry {
    TaintAll(env, r, [secret] + env.forms(secret))
  }

  datatype Op =
    | Resolve(workspace: string, name: string, asked: int, cachedAt: int)  // the two clock readings
    | Set(workspace: string, name: string, value: string, written: bool)   // a failing store may or may not write
    | Delete(workspace: string, name: string, removed: bool)
    | FlushCache
    | Outside(workspace: string, name: string, now: Option<string>)          // a write or delete past the resolver

  function AfterResolve(env: Env, s: State, workspace: string, name: string, asked: int, cachedAt: int)
      : (State, Answer) {
    var key := CacheKey(workspace, name);
    if key in s.cache && asked - s.cache[key].resolved < env.ttl then (s, CheckEmpty(s.cache[key].value))
    else
      var answer := Direct(s.store, workspace, name);
      if !answer.Secret? then (s, answer)
      else
        (State(s.store, s.cache[key := Cached(answer.value, cachedAt)], Taint(env, s.taint, answer.value)), answer)
  }

  function Forgotten(cache: map<string, Cached>, workspace: string, name: string): map<string, Cached> {
    cache - {CacheKey(workspace, name)}
  }

  function After(env: Env, s: State, op: Op): State {
    match op
    case Resolve(w, n, asked, at) => AfterResolve(env, s, w, n, asked, at).0
    case Set(w, n, v, written) =>
      State(if written then s.store[(w, n) := v] else s.store, Forgotten(s.cache, w, n), s.taint)
    case Delete(w, n, removed) =>
      State(if removed then s.store - {(w, n)} else s.store, Forgotten(s.cache, w, n), s.taint)
    case FlushCache => s.(cache := map[])
    case Outside(w, n, v) => s.(store := if v.Some? then s.store[(w, n) := v.value] else s.store - {(w, n)})
  }

  class Resolver {
    const env: Env
    var store: map<Ref, string>
    var cache: map<string, Cached>
    var seen: set<string>
    var values: seq<string>

    constructor (env: Env, store: map<Ref, string>)
      ensures this.env == env && Abstract() == State(store, map[], Registry({}, []))
    {
      this.env, this.store, this.cache, this.seen, this.values := env, store, map[], {}, [];
    }

    function Abstract(): State
      reads this
    {
      State(store, cache, Registry(seen, values))
    }

    method TaintOne(secret: string)
      modifies `seen, `values
      ensures Registry(seen, values) == TaintExact(env, old(Registry(seen, values)), secret)
    {
      if |secret| < MIN_SECRET { return; }
      var key := env.digest(secret);
      if key in seen { return; }
      seen := seen + {key};
      values := values + [secret];
    }

    method TaintSecret(secret: string)
      modifies `seen, `values
      ensures Registry(seen, values) == Taint(env, old(Registry(seen, values)), secret)
    {
      var all := [secret] + env.forms(secret);
      for i := 0 to |all|
        invariant TaintAll(env, Registry(seen, values), all[i..]) == TaintAll(env, old(Registry(seen, values)), all)
      {
        assert all[i..][0] == all[i] && all[i..][1..] == all[i + 1..];
        TaintOne(all[i]);
      }
    }

    method ResolveSecret(workspace: string, name: string, asked: int, cachedAt: int) returns (answer: Answer)
      modifies this
      ensures (Abstract(), answer) == AfterResolve(env, old(Abstract()), workspace, name, asked, cachedAt)
    {
      var key := CacheKey(workspace, name);
      if key in cache {
        var cached := cache[key];
        if asked - cached.resolved < env.ttl { return CheckEmpty(cached.value); }
      }
      answer := Direct(store, workspace, name);
      if !answer.Secret? { return; }
      cache := cache[key := Cached(answer.value, cachedAt)];
      TaintSecret(answer.value);
    }

    method SetSecret(workspace: string, name: string, value: string, written: bool)
      modifies `store, `cache
      ensures Abstract() == After(env, old(Abstract()), Set(workspace, name, value, written))
    {
      if written { store := store[(workspace, name) := value]; }
      cache := Forgotten(cache, workspace, name);
    }

    method DeleteSecret(workspace: string, name: string, removed: bool)
      modifies `store, `cache
      ensures Abstract() == After(env, old(Abstract()), Delete(workspace, name, removed))
    {
      if removed { store := store - {(workspace, name)}; }
      cache := Forgotten(cache, workspace, name);
    }

    method Flush()
      modifies `cache
      ensures Abstract() == After(env, old(Abstract()), FlushCache)
    {
      cache := map[];
    }

    method Redact(data: string) returns (out: string)
      ensures out == RedactAll(data, values)
    {
      out := data;
      if |values| == 0 { return; }
      for i := 0 to |values|
        invariant RedactAll(out, values[i..]) == RedactAll(data, values)
      {
        assert values[i..][0] == values[i] && values[i..][1..] == values[i + 1..];
        if |values[i]| == 0 { continue; }
        out := ReplaceAll(out, values[i]);
      }
    }
  }

  // ----- runs

  /** The operation goes through the resolver and is about one of the references. */
  ghost predicate Over(refs: iset<Ref>, op: Op) {
    op.FlushCache? || (!op.Outside? && (op.workspace, op.name) in refs)
  }

  /** The state after the first n operations of a run. */
  function StateAt(env: Env, start: State, ops: seq<Op>, n: nat): State
    requires n <= |ops|
  {
    if n == 0 then start else After(env, StateAt(env, start, ops, n - 1), ops[n - 1])
  }

  /** The answer the n-th operation of a run gives, if it is a Resolve. */
  function AnswerAt(env: Env, start: State, ops: seq<Op>, n: nat): Answer
    requires n < |ops| && ops[n].Resolve?
  {
    AfterResolve(env, StateAt(env, start, ops, n), ops[n].workspace, ops[n].name, ops[n].asked, ops[n].cachedAt).1
  }

  /** Different references have different cache keys. */
  ghost predicate KeysDiffer(refs: iset<Ref>) {
    forall r: Ref, t: Ref :: r in refs && t in refs && CacheKey(r.0, r.1) == CacheKey(t.0, t.1) ==> r == t
  }

  /** Every cached secret is the stored one, not empty. */
  ghost predicate Coherent(s: State, refs: iset<Ref>) {
    forall r: Ref :: r in refs && CacheKey(r.0, r.1) in s.cache ==>
      r in s.store && s.cache[CacheKey(r.0, r.1)].value == s.store[r] && |s.store[r]| > 1
  }

  lemma StepKeepsCoherent(env: Env, s: State, refs: iset<Ref>, op: Op)
    requires KeysDiffer(refs) && Coherent(s, refs) && Over(refs, op)
    ensures Coherent(After(env, s, op), refs)
  {
  }

  lemma {:induction false} RunStaysCoherent(env: Env, start: State, refs: iset<Ref>, ops: seq<Op>, n: nat)
    requires n <= |ops| && start.cache == map[] && KeysDiffer(refs) && forall k :: 0 <= k < |ops| ==> Over(refs, ops[k])
    ensures Coherent(StateAt(env, start, ops, n), refs)
  {
    if n > 0 {
      RunStaysCoherent(env, start, refs, ops, n - 1);
      StepKeepsCoherent(env, StateAt(env, start, ops, n - 1), refs, ops[n - 1]);
    }
  }

  /** The cache is invisible: in every run over the references, whatever the clocks
      say, each Resolve answers what the store holds at that moment. */
  ghost predicate Transparent(env: Env, refs: iset<Ref>) {
    forall start: State, ops: seq<Op>, n: nat ::
      n < |ops| && ops[n].Resolve? && start.cache == map[] && (forall k :: 0 <= k < |ops| ==> Over(refs, ops[k])) ==>
        AnswerAt(env, start, ops, n) == Direct(StateAt(env, start, ops, n).store, ops[n].workspace, ops[n].name)
  }

  lemma CacheIsTransparent(env: Env, refs: iset<Ref>)
    ensures Transparent(env, refs) <==> KeysDiffer(refs)
  {
    if KeysDiffer(refs) {
      forall start: State, ops: seq<Op>, n: nat
        | n < |ops| && ops[n].Resolve? && start.cache == map[] && (forall k :: 0 <= k < |ops| ==> Over(refs, ops[k]))
        ensures AnswerAt(env, start, ops, n) == Direct(StateAt(env, start, ops, n).store, ops[n].workspace, ops[n].name)
      {
        RunStaysCoherent(env, start, refs, ops, n);
      }
    } else {
      var r: Ref, t: Ref :| r in refs && t in refs && CacheKey(r.0, r.1) == CacheKey(t.0, t.1) && r != t;
      KeysCollide(env, r, t);
    }
  }

  /** Two secrets with one cache key: the second Resolve answers the first secret. */
  lemma KeysCollide(env: Env, r: Ref, t: Ref)
    requires r != t && CacheKey(r.0, r.1) == CacheKey(t.0, t.1)
    ensures var start := State(map[r := "first", t := "second"], map[], Registry({}, []));
      var ops := [Resolve(r.0, r.1, 0, 0), Resolve(t.0, t.1, env.ttl - 1, 0)];
      && AnswerAt(env, start, ops, 1) == Secret("first")
      && Direct(StateAt(env, start, ops, 1).store, t.0, t.1) == Secret("second")
  {
    var start := State(map[r := "first", t := "second"], map[], Registry({}, []));
    var ops := [Resolve(r.0, r.1, 0, 0), Resolve(t.0, t.1, env.ttl - 1, 0)];
    assert StateAt(env, start, ops, 0) == start;
    assert StateAt(env, start, ops, 1) == After(env, start, ops[0]);
  }

  /** Workspace names without '/' keep the keys apart, so the cache is invisible. */
  lemma SlashFreeIsTransparent(env: Env)
    ensures Transparent(env, iset r: Ref | '/' !in r.0)
  {
    forall r: Ref, t: Ref | '/' !in r.0 && '/' !in t.0 && CacheKey(r.0, r.1) == CacheKey(t.0, t.1) ensures r == t {
      var k := CacheKey(r.0, r.1);
      assert k[|r.0|] == '/' && k[|t.0|] == '/';
      assert forall i :: 0 <= i < |r.0| ==> k[i] == r.0[i] != '/';
      assert forall i :: 0 <= i < |t.0| ==> k[i] == t.0[i] != '/';
      assert k[..|r.0|] == r.0 && k[..|t.0|] == t.0;
      assert k[|r.0| + 1..] == r.1 && k[|t.0| + 1..] == t.1;
    }
    CacheIsTransparent(env, iset r: Ref | '/' !in r.0);
  }

  /** With '/' in a workspace name two references can share a key. */
  lemma SlashesCollide(env: Env)
    ensures !Transparent(env, iset{("a", "b/c"), ("a/b", "c")})
  {
    assert CacheKey("a", "b/c") == "a/b/c" == CacheKey("a/b", "c");
    CacheIsTransparent(env, iset{("a", "b/c"), ("a/b", "c")});
  }

  // ----- how old an answer can be

  /** The resolve at m cached what the store held then. */
  ghost predicate CachedBy(env: Env, start: State, ops: seq<Op>, m: nat, key: string, c: Cached) {
    && m < |ops| && ops[m].Resolve? && CacheKey(ops[m].workspace, ops[m].name) == key && ops[m].cachedAt == c.resolved
    && Direct(StateAt(env, start, ops, m).store, ops[m].workspace, ops[m].name) == Secret(c.value)
  }

  /** Every cached secret was read from the store by an earlier resolve. */
  lemma {:induction false} CacheIsRead(env: Env, start: State, ops: seq<Op>, n: nat, key: string)
    requires n <= |ops| && start.cache == map[] && key in StateAt(env, start, ops, n).cache
    ensures exists m: nat :: m < n && CachedBy(env, start, ops, m, key, StateAt(env, start, ops, n).cache[key])
  {
    if n > 0 {
      var s, op := StateAt(env, start, ops, n - 1), ops[n - 1];
      var c := StateAt(env, start, ops, n).cache[key];
      if key in s.cache && s.cache[key] == c {
        CacheIsRead(env, start, ops, n - 1, key);
      } else {
        assert CachedBy(env, start, ops, n - 1, key, c);
      }
    }
  }

  /** Writes past the resolver included: an answer is what the store holds, or what it held
      at an earlier resolve of the same key that is less than the ttl old. */
  lemma AnswerIsRecent(env: Env, start: State, ops: seq<Op>, n: nat)
    requires n < |ops| && ops[n].Resolve? && start.cache == map[]
    ensures var key := CacheKey(ops[n].workspace, ops[n].name);
      || AnswerAt(env, start, ops, n) == Direct(StateAt(env, start, ops, n).store, ops[n].workspace, ops[n].name)
      || exists m: nat, c :: m < n && CachedBy(env, start, ops, m, key, c) && ops[n].asked - c.resolved < env.ttl &&
           AnswerAt(env, start, ops, n) == Secret(c.value)
  {
    var s, key := StateAt(env, start, ops, n), CacheKey(ops[n].workspace, ops[n].name);
    if key in s.cache && ops[n].asked - s.cache[key].resolved < env.ttl {
      CacheIsRead(env, start, ops, n, key);
      var m: nat :| m < n && CachedBy(env, start, ops, m, key, s.cache[key]);
      assert CachedBy(env, start, ops, m, key, s.cache[key]);
    }
  }

  predicate SameKey(a: Op, b: Op) {
    a.Resolve? && b.Resolve? && CacheKey(a.workspace, a.name) == CacheKey(b.workspace, b.name)
  }

  /** Once every earlier read of the key has reached the ttl, the store is read again. */
  lemma ExpiredIsReadAgain(env: Env, start: State, ops: seq<Op>, n: nat)
    requires n < |ops| && ops[n].Resolve? && start.cache == map[]
    requires forall m :: 0 <= m < n && SameKey(ops[m], ops[n]) ==> ops[n].asked - ops[m].cachedAt >= env.ttl
    ensures AnswerAt(env, start, ops, n) == Direct(StateAt(env, start, ops, n).store, ops[n].workspace, ops[n].name)
  {
    AnswerIsRecent(env, start, ops, n);
  }

  /** Until then the cached secret is the answer, whatever was written past the resolver. */
  lemma FreshIsCached(env: Env, s: State, workspace: string, name: string, asked: int, cachedAt: int)
    ensures var key := CacheKey(workspace, name);
      key in s.cache && |s.cache[key].value| >= 2 && asked - s.cache[key].resolved < env.ttl ==>
        AfterResolve(env, s, workspace, name, asked, cachedAt) == (s, Secret(s.cache[key].value))
  {
  }

  /** What the store answers: its secret of two or more bytes; a shorter one is empty. */
  lemma StoreAnswers(store: map<Ref, string>, workspace: string, name: string)
    ensures (workspace, name) !in store ==> Direct(store, workspace, name) == NotFound
    ensures (workspace, name) in store ==>
      var v := store[(workspace, name)];
      Direct(store, workspace, name) == if |v| >= 2 then Secret(v) else Empty
  {
  }

  // ----- registration

  ghost predicate CollisionFree(env: Env) {
    forall x: string, y: string :: env.digest(x) == env.digest(y) ==> x == y
  }

  /** Every digest seen belongs to a registered value, and values are long enough. */
  ghost predicate Proper(env: Env, r: Registry) {
    && (forall d :: d in r.seen ==> exists k :: 0 <= k < |r.values| && env.digest(r.values[k]) == d)
    && (forall k :: 0 <= k < |r.values| ==> |r.values[k]| >= MIN_SECRET)
  }

  lemma TaintExactRegisters(env: Env, r: Registry, secret: string)
    requires Proper(env, r) && CollisionFree(env)
    ensures Proper(env, TaintExact(env, r, secret)) && r.values <= TaintExact(env, r, secret).values
    ensures |secret| >= MIN_SECRET ==> secret in TaintExact(env, r, secret).values
  {
    var t := TaintExact(env, r, secret);
    if |secret| >= MIN_SECRET {
      if env.digest(secret) in r.seen {
        var k :| 0 <= k < |r.values| && env.digest(r.values[k]) == env.digest(secret);
        assert r.values[k] == secret;
      } else {
        assert t.values[|r.values|] == secret;
        forall d | d in t.seen ensures exists k :: 0 <= k < |t.values| && env.digest(t.values[k]) == d {
          if d in r.seen {
            var k :| 0 <= k < |r.values| && env.digest(r.values[k]) == d;
            assert t.values[k] == r.values[k];
          }
        }
      }
    }
  }

  lemma {:induction false} TaintAllRegisters(env: Env, r: Registry, secrets: seq<string>)
    requires Proper(env, r) && CollisionFree(env)
    ensures Proper(env, TaintAll(env, r, secrets)) && r.values <= TaintAll(env, r, secrets).values
    ensures forall i :: 0 <= i < |secrets| && |secrets[i]| >= MIN_SECRET ==>
      secrets[i] in TaintAll(env, r, secrets).values
    decreases secrets
  {
    if secrets != [] {
      TaintExactRegisters(env, r, secrets[0]);
      TaintAllRegisters(env, TaintExact(env, r, secrets[0]), secrets[1..]);
      forall i | 0 <= i < |secrets| && |secrets[i]| >= MIN_SECRET
        ensures secrets[i] in TaintAll(env, r, secrets).values {
        if i > 0 { assert secrets[i] == secrets[1..][i - 1]; }
      }
    }
  }

  /** The registry is proper and holds every cached secret that is long enough. */
  ghost predicate Guarded(env: Env, s: State) {
    && Proper(env, s.taint)
    && forall k :: k in s.cache && |s.cache[k].value| >= MIN_SECRET ==> s.cache[k].value in s.taint.values
  }

  lemma StepKeepsGuarded(env: Env, s: State, op: Op)
    requires Guarded(env, s) && CollisionFree(env)
    ensures Guarded(env, After(env, s, op)) && s.taint.values <= After(env, s, op).taint.values
  {
    if op.Resolve? {
      var answer := Direct(s.store, op.workspace, op.name);
      if answer.Secret? {
        TaintAllRegisters(env, s.taint, [answer.value] + env.forms(answer.value));
        assert ([answer.value] + env.forms(answer.value))[0] == answer.value;
      }
    }
  }

  ghost predicate Fresh(s: State) { s.cache == map[] && s.taint == Registry({}, []) }

  lemma {:induction false} RunStaysGuarded(env: Env, start: State, ops: seq<Op>, n: nat)
    requires n <= |ops| && Fresh(start) && CollisionFree(env)
    ensures Guarded(env, StateAt(env, start, ops, n))
  {
    if n > 0 {
      RunStaysGuarded(env, start, ops, n - 1);
      StepKeepsGuarded(env, StateAt(env, start, ops, n - 1), ops[n - 1]);
    }
  }

  lemma {:induction false} RegistryOnlyGrows(env: Env, start: State, ops: seq<Op>, n: nat, m: nat)
    requires n <= m <= |ops| && Fresh(start) && CollisionFree(env)
    ensures StateAt(env, start, ops, n).taint.values <= StateAt(env, start, ops, m).taint.values
    decreases m - n
  {
    if n < m {
      RegistryOnlyGrows(env, start, ops, n, m - 1);
      RunStaysGuarded(env, start, ops, m - 1);
      StepKeepsGuarded(env, StateAt(env, start, ops, m - 1), ops[m - 1]);
    }
  }

  /** A secret of at least five bytes that Resolve returned is registered from
      then on, whether it came from the store or from the cache. */
  lemma ReturnedSecretsStayRegistered(env: Env, start: State, ops: seq<Op>, n: nat, m: nat)
    requires n < m <= |ops| && ops[n].Resolve? && Fresh(start) && CollisionFree(env)
    requires AnswerAt(env, start, ops, n).Secret? && |AnswerAt(env, start, ops, n).value| >= 5
    ensures AnswerAt(env, start, ops, n).value in StateAt(env, start, ops, m).taint.values
  {
    var s, secret := StateAt(env, start, ops, n), AnswerAt(env, start, ops, n).value;
    RunStaysGuarded(env, start, ops, n);
    assert StateAt(env, start, ops, n + 1) == After(env, s, ops[n]);
    StepKeepsGuarded(env, s, ops[n]);
    var key := CacheKey(ops[n].workspace, ops[n].name);
    if key in s.cache && ops[n].asked - s.cache[key].resolved < env.ttl {
      assert secret == s.cache[key].value;
    } else {
      assert secret == After(env, s, ops[n]).cache[key].value;
    }
    RegistryOnlyGrows(env, start, ops, n + 1, m);
  }

  /** Put together: once Resolve has returned a secret that no placeholder can
      complete, no redacted output contains it, and redaction never makes data
      longer. */
  lemma RedactionCoversReturnedSecrets(env: Env, start: State, ops: seq<Op>, n: nat, m: nat, data: string)
    requires n < m <= |ops| && ops[n].Resolve? && Fresh(start) && CollisionFree(env)
    requires AnswerAt(env, start, ops, n).Secret? && |AnswerAt(env, start, ops, n).value| >= 5
    requires Solid(AnswerAt(env, start, ops, n).value)
    ensures !Occurs(AnswerAt(env, start, ops, n).value, RedactAll(data, StateAt(env, start, ops, m).taint.values))
    ensures |RedactAll(data, StateAt(env, start, ops, m).taint.values)| <= |data|
  {
    var values := StateAt(env, start, ops, m).taint.values;
    ReturnedSecretsStayRegistered(env, start, ops, n, m);
    var k :| 0 <= k < |values| && values[k] == AnswerAt(env, start, ops, n).value;
    RedactHides(data, values, k);
    RunStaysGuarded(env, start, ops, m);
    RedactNeverGrows(data, values);
  }
}
