/** From a declared configuration to the requests it serves: what routing, pools and authentication do
    under any runtime that a sequence of configuration writes can install. */
module Serving {
  import opened Wrappers
  import opened Config
  import opened DataPlane
  import opened Activation
  import Routing
  import Breaker
  import Probes
  import ProxyRuns
  import Histories

  function Row(r: CompiledRoute): Routing.Route {
    Routing.Route(r.name, r.host, r.pathPrefix, r.verbs)
  }

  function Table(routes: seq<CompiledRoute>): (rows: seq<Routing.Route>)
    ensures |rows| == |routes|
  {
    seq(|routes|, i requires 0 <= i < |routes| => Row(routes[i]))
  }

  // ---------- Declared and compiled routes ----------

  function DeclaredPrefix(r: Route): string {
    if r.pathPrefix == "" then "/" else r.pathPrefix
  }

  /** A declared route takes a request: any host or this one, a prefix of the path, and any
      method or one of those listed, in whatever case. */
  ghost predicate Takes(env: Env, r: Route, q: Routing.Request) {
    && (env.normalizeHost(r.host) == "" || env.normalizeHost(r.host) == q.host)
    && Routing.PathMatches(DeclaredPrefix(r), q.path)
    && (r.verbs.Elems() == [] || exists k :: 0 <= k < |r.verbs.Elems()| && env.upper(r.verbs.Elems()[k]) == q.verb)
  }

  ghost predicate FirstDeclared(env: Env, routes: seq<Route>, q: Routing.Request, i: int) {
    && 0 <= i < |routes|
    && Takes(env, routes[i], q)
    && forall j :: 0 <= j < |routes| && Takes(env, routes[j], q) ==>
         || |DeclaredPrefix(routes[j])| < |DeclaredPrefix(routes[i])|
         || (|DeclaredPrefix(routes[j])| == |DeclaredPrefix(routes[i])| && i <= j)
  }

  lemma RowTakes(env: Env, r: Route, pool: CompiledPool, q: Routing.Request)
    ensures Routing.Applies(Row(CompileRoute(r, env, pool)), q) <==> Takes(env, r, q)
    ensures Row(CompileRoute(r, env, pool)).prefix == DeclaredPrefix(r)
  {
    hide Routing.PathMatches;
    var verbs := r.verbs.Elems();
    var compiled := CompileRoute(r, env, pool).verbs;
    assert compiled == {} <==> verbs == [] by {
      if verbs != [] { assert env.upper(verbs[0]) in compiled; }
    }
    assert q.verb in compiled <==> exists k :: 0 <= k < |verbs| && env.upper(verbs[k]) == q.verb;
  }

  lemma TableSize(env: Env, cfg: Config, authorizer: Authorizer)
    requires Compile(env, cfg, authorizer).Success?
    ensures |Compile(env, cfg, authorizer).value.routes| == |cfg.routes.Elems()|
  {
    RoutesCompile(cfg.routes.Elems(), env, CompilePools(cfg.upstreams.Elems(), env.parse, map[]).value);
  }

  /** The search over the compiled table finds exactly the declared route that is first among
      those with the longest prefix that take the request. */
  lemma RoutedAsDeclared(env: Env, cfg: Config, authorizer: Authorizer, q: Routing.Request, i: int)
    requires Compile(env, cfg, authorizer).Success?
    ensures Routing.Best(Table(Compile(env, cfg, authorizer).value.routes), q, i) <==>
            FirstDeclared(env, cfg.routes.Elems(), q, i)
  {
    hide Compile, CompileRoute, Takes, Routing.Applies;
    var table := Table(Compile(env, cfg, authorizer).value.routes);
    TableSize(env, cfg, authorizer);
    forall k | 0 <= k < |cfg.routes.Elems()|
      ensures Routing.Applies(table[k], q) <==> Takes(env, cfg.routes.Elems()[k], q)
      ensures table[k].prefix == DeclaredPrefix(cfg.routes.Elems()[k])
    {
      var j := CompiledRouteMeaning(env, cfg, authorizer, k);
      RowTakes(env, cfg.routes.Elems()[k], CompilePool(cfg.upstreams.Elems()[j], env.parse), q);
    }
  }

  /** A declared route without a prefix, or with "/", takes every path of its host and methods. */
  lemma DefaultPrefixTakesAll(env: Env, r: Route, q: Routing.Request)
    requires r.pathPrefix == "" || r.pathPrefix == "/"
    requires env.normalizeHost(r.host) == "" || env.normalizeHost(r.host) == q.host
    requires r.verbs.Elems() == [] || exists k :: 0 <= k < |r.verbs.Elems()| && env.upper(r.verbs.Elems()[k]) == q.verb
    ensures Takes(env, r, q)
  {
    Routing.RootMatchesAll(q.path);
  }

  // ---------- Everything a gateway can come to serve ----------

  /** The runtime after any sequence of writes is the compilation of the configuration in force,
      whose restart-only sections are those of the start. */
  lemma ServesCompiledConfig(env: Env, cfg: Config, authorizer: Authorizer, ops: seq<Op>)
    requires Compile(env, cfg, authorizer).Success?
    ensures var p := Reached(env, cfg, authorizer, ops);
            && Compile(env, p.control.config, authorizer) == Success(p.data)
            && SameFixedSections(p.control.config, Clone(cfg))
  {
    GatewayIsFaithful(env);
    PlanesAlwaysAgree(GatewayOf(env), cfg, authorizer, ops);
  }

  /** No sequence of writes can lead to a protected route on a gateway that was started with
      authentication disabled, or change who decides about protected routes. */
  lemma ProtectionNeedsMode(env: Env, cfg: Config, authorizer: Authorizer, ops: seq<Op>, i: nat)
    requires Compile(env, cfg, authorizer).Success?
    requires var p := Reached(env, cfg, authorizer, ops); i < |p.data.routes| && p.data.routes[i].requireAuth
    ensures cfg.auth.mode != "disabled"
    ensures Reached(env, cfg, authorizer, ops).data.authorizer == authorizer
  {
    ServesCompiledConfig(env, cfg, authorizer, ops);
    var c := Reached(env, cfg, authorizer, ops).control.config;
    TableSize(env, c, authorizer);
    var j := CompiledRouteMeaning(env, c, authorizer, i);
    assert c.routes.Elems()[i].requireAuth;
    ValidationMeansAcceptable(c, env.parse);
    assert c.auth.mode == cfg.auth.mode;
  }

  /** In every state that a gateway can reach, each route of the published configuration is installed at its
      place as declared: protected exactly if it says so, with its scopes and headers, over a pool with
      the numbers declared for its upstream. */
  lemma InstalledAsDeclared(env: Env, cfg: Config, authorizer: Authorizer, ops: seq<Op>, i: nat) returns (j: int)
    requires Compile(env, cfg, authorizer).Success?
    requires i < |Reached(env, cfg, authorizer, ops).control.config.routes.Elems()|
    ensures var p := Reached(env, cfg, authorizer, ops);
            var c := p.control.config;
            && |p.data.routes| == |c.routes.Elems()|
            && AsDeclared(p.data.routes[i], c.routes.Elems()[i], env)
            && (p.data.routes[i].requireAuth <==> c.routes.Elems()[i].requireAuth)
            && p.data.routes[i].scopes == c.routes.Elems()[i].scopes.Elems()
            && 0 <= j < |c.upstreams.Elems()| && c.upstreams.Elems()[j].name == c.routes.Elems()[i].upstream
            && FirstBadURL(c.upstreams.Elems()[j].urls.Elems(), env.parse).None?
            && p.data.routes[i].pool == CompilePool(c.upstreams.Elems()[j], env.parse)
  {
    ServesCompiledConfig(env, cfg, authorizer, ops);
    j := CompiledRouteMeaning(env, Reached(env, cfg, authorizer, ops).control.config, authorizer, i);
  }

  // ---------- The pools that can come to be installed ----------

  predicate PoolAt(env: Env, cfg: Config, authorizer: Authorizer, ops: seq<Op>, i: nat, pool: CompiledPool)
    requires Compile(env, cfg, authorizer).Success?
  {
    var routes := Reached(env, cfg, authorizer, ops).data.routes;
    i < |routes| && routes[i].pool == pool
  }

  /** A pool of some runtime that some sequence of writes installs. */
  ghost predicate Installed(pool: CompiledPool, env: Env, cfg: Config, authorizer: Authorizer) {
    && Compile(env, cfg, authorizer).Success?
    && exists ops: seq<Op>, i: nat :: PoolAt(env, cfg, authorizer, ops, i, pool)
  }

  lemma RoutesHaveServiceablePools(env: Env, cfg: Config, authorizer: Authorizer, i: nat)
    requires Compile(env, cfg, authorizer).Success? && i < |Compile(env, cfg, authorizer).value.routes|
    ensures var pool := Compile(env, cfg, authorizer).value.routes[i].pool;
            pool.threshold >= 1 && pool.cooldown > 0 && pool.attempts >= 0 && |pool.endpoints| > 0
  {
    TableSize(env, cfg, authorizer);
    var j := CompiledRouteMeaning(env, cfg, authorizer, i);
    PoolIsServiceable(cfg.upstreams.Elems()[j], env.parse);
  }

  lemma InstalledIsServiceable(pool: CompiledPool, env: Env, cfg: Config, authorizer: Authorizer)
    ensures Installed(pool, env, cfg, authorizer) ==>
              pool.threshold >= 1 && pool.cooldown > 0 && pool.attempts >= 0 && |pool.endpoints| > 0
  {
    if Installed(pool, env, cfg, authorizer) {
      var ops: seq<Op>, i: nat :| PoolAt(env, cfg, authorizer, ops, i, pool);
      ServesCompiledConfig(env, cfg, authorizer, ops);
      RoutesHaveServiceablePools(env, Reached(env, cfg, authorizer, ops).control.config, authorizer, i);
    }
  }

  function StartOf(pool: CompiledPool, now: int): ProxyRuns.Traffic
    requires |pool.endpoints| > 0
  {
    ProxyRuns.Fresh(|pool.endpoints|, pool.attempts, pool.threshold, pool.cooldown, 0, now)
  }

  /** The pool as it starts to serve, and what steps can make of it. */
  ghost predicate Runs(pool: CompiledPool, now: int, steps: seq<ProxyRuns.Step>, t: ProxyRuns.Traffic) {
    && 0 < |pool.endpoints| && 2 * |pool.endpoints| <= Probes.TWO_TO_64
    && ProxyRuns.Run(StartOf(pool, now), steps, t)
  }

  /** Request r, on its way or in its first call, gets its answer. */
  predicate Ends(r: nat, ok: bool, release: seq<ProxyRuns.Step>) {
    || release == [ProxyRuns.Return(r, ok, false)]
    || release == [ProxyRuns.Enter(r), ProxyRuns.Return(r, ok, false)]
  }

  lemma ShapeOfSound(t: ProxyRuns.Traffic)
    requires ProxyRuns.Inv(t)
    ensures t.Shaped()
  {
  }

  /** In every pool that can come to be installed, under every interleaving of requests and health checks:
      a half-open breaker has a prober, which can end that state whatever answer it gets. */
  lemma InstalledPoolsAreSound(pool: CompiledPool, env: Env, cfg: Config, authorizer: Authorizer,
                               now: int, steps: seq<ProxyRuns.Step>, t: ProxyRuns.Traffic, e: nat, ok: bool)
    requires Installed(pool, env, cfg, authorizer) && Runs(pool, now, steps, t)
    ensures ProxyRuns.Inv(t)
    ensures e < |t.breakers| && t.breakers[e].halfOpen ==>
              exists r, release, u :: Ends(r, ok, release) && ProxyRuns.Run(t, release, u)
                                      && e < |u.breakers| && !u.breakers[e].halfOpen
  {
    InstalledIsServiceable(pool, env, cfg, authorizer);
    hide Installed, ProxyRuns.Run, ProxyRuns.Inv, ProxyRuns.Fresh;
    var n := |pool.endpoints|;
    ProxyRuns.FreshPoolSound(n, pool.attempts, pool.threshold, pool.cooldown, 0, now);
    ProxyRuns.HalfOpenHasProber(StartOf(pool, now), steps, t);
    ShapeOfSound(t);
    if e < |t.breakers| && t.breakers[e].halfOpen {
      var r, release, u := ProxyRuns.HalfOpenIsReleased(n, pool.attempts, pool.threshold, pool.cooldown, 0, now,
                                                        steps, t, e, ok);
      assert Ends(r, ok, release);
    }
  }

  /** Its picks are balanced for as long as everything stays up. */
  lemma InstalledPoolsAreBalanced(pool: CompiledPool, env: Env, cfg: Config, authorizer: Authorizer,
                                  now: int, steps: seq<ProxyRuns.Step>, t: ProxyRuns.Traffic, e: nat)
    requires Installed(pool, env, cfg, authorizer) && Runs(pool, now, steps, t) && e < |pool.endpoints|
    ensures var k, n := ProxyRuns.Draws(steps), |pool.endpoints|;
            ProxyRuns.StaysUp(StartOf(pool, now), steps) && k < Probes.TWO_TO_64 ==>
              k / n <= |ProxyRuns.BoundFor(t, e)| <= k / n + if k % n == 0 then 0 else 1
  {
    var n := |pool.endpoints|;
    hide ProxyRuns.Run, ProxyRuns.StaysUp, ProxyRuns.BoundFor, Installed;
    ProxyRuns.FreshPoolUp(n, pool.attempts, pool.threshold, pool.cooldown, 0, now);
    if ProxyRuns.StaysUp(StartOf(pool, now), steps) && ProxyRuns.Draws(steps) < Probes.TWO_TO_64 {
      ProxyRuns.RoundRobin(StartOf(pool, now), steps, t, e);
    }
  }

  /** In every run of such a pool, each breaker is at any time what its history makes of it. */
  lemma InstalledBreakersRemember(pool: CompiledPool, env: Env, cfg: Config, authorizer: Authorizer,
                                  now: int, steps: seq<ProxyRuns.Step>, t: ProxyRuns.Traffic, e: nat, later: int)
    requires Installed(pool, env, cfg, authorizer) && Runs(pool, now, steps, t) && e < |pool.endpoints|
    ensures pool.threshold >= 1 && e < |t.breakers|
    ensures var h := Histories.History(StartOf(pool, now), steps, e);
            && t.breakers[e].failures == Breaker.FailureRun(h)
            && (t.breakers[e].openUntil.Some? <==> Breaker.FailureRun(h) >= pool.threshold)
            && (t.breakers[e].halfOpen <==> Breaker.ProbeOut(h, pool.threshold, pool.cooldown))
            && (Breaker.Admits(t.breakers[e], later) <==>
                  || Breaker.FailureRun(h) < pool.threshold
                  || (&& Breaker.LastFailure(h) + pool.cooldown <= later
                      && !Breaker.ProbeOut(h, pool.threshold, pool.cooldown)))
  {
    InstalledIsServiceable(pool, env, cfg, authorizer);
    hide Installed, ProxyRuns.Run;
    Histories.RunDetermines(|pool.endpoints|, pool.attempts, pool.threshold, pool.cooldown, 0, now, steps, t, e, later);
  }

  lemma SameShape(start: ProxyRuns.Traffic, steps: seq<ProxyRuns.Step>, s: ProxyRuns.Traffic)
    requires start.Shaped() && ProxyRuns.Run(start, steps, s)
    ensures |s.breakers| == |start.breakers|
  {
    Histories.HistoryIsReplayed(start, steps, s, 0);
  }

  /** And once one of its breakers has opened, no window of any further run holds more requests that get
      through than fit a cooldown apart, until that breaker is told a success. */
  lemma InstalledBreakersAreSlow(pool: CompiledPool, env: Env, cfg: Config, authorizer: Authorizer, now: int,
                                 before: seq<ProxyRuns.Step>, s: ProxyRuns.Traffic,
                                 steps: seq<ProxyRuns.Step>, t: ProxyRuns.Traffic, e: nat, width: nat)
    requires Installed(pool, env, cfg, authorizer) && Runs(pool, now, before, s)
    requires s.Shaped() && ProxyRuns.Run(s, steps, t)
    requires e < |s.breakers| && s.breakers[e].openUntil.Some?
    requires Histories.NoSuccess(Histories.History(s, steps, e))
    ensures pool.cooldown > 0
    ensures var times := Histories.Entries(s, steps, e);
            forall i, j :: 0 <= i <= j < |times| && times[j] - times[i] <= width ==>
              j - i + 1 <= width / pool.cooldown + 1
  {
    InstalledIsServiceable(pool, env, cfg, authorizer);
    var start := StartOf(pool, now);
    ProxyRuns.FreshPoolSound(|pool.endpoints|, pool.attempts, pool.threshold, pool.cooldown, 0, now);
    hide Installed, ProxyRuns.Run, ProxyRuns.Inv;
    ProxyRuns.HalfOpenHasProber(start, before, s);
    SameShape(start, before, s);
    Histories.RunDetermines(|pool.endpoints|, pool.attempts, pool.threshold, pool.cooldown, 0, now, before, s, e, now);
    var times := Histories.Entries(s, steps, e);
    forall i, j | 0 <= i <= j < |times| && times[j] - times[i] <= width
      ensures j - i + 1 <= width / pool.cooldown + 1
    {
      Histories.EntriesAreSlow(s, steps, t, e, i, j, width);
    }
  }
}
