/** Compiling a configuration into the state the data plane serves from, and swapping it in. */
module DataPlane {
  import opened Wrappers
  import opened Config

  const SECOND: int := 1_000_000_000

  /** The library functions compilation depends on. */
  datatype Env = Env(parse: Parser, normalizeHost: string -> string, upper: string -> string)

  /** Who decides about protected routes; the identity of an authorizer, if there is one. */
  type Authorizer = Option<nat>

  datatype Error =
    | Invalid(fault: Fault)
    | DuplicateUpstream(name: string)
    | NoURLs(name: string)
    | InvalidURL(name: string, url: string)
    | UnknownUpstream(route: string, upstream: string)
    | RestartRequired

  datatype CompiledPool = CompiledPool(name: string, endpoints: seq<Url>, dialTimeout: int, requestTimeout: int,
                                       healthPath: string,
                       healthInterval: int, attempts: int, threshold: int, cooldown: int)

  datatype CompiledRoute = CompiledRoute(name: string, host: string, pathPrefix: string, verbs: set<string>,
                                         headers: map<string, string>, requireAuth: bool, scopes: seq<string>,
                                         pool: CompiledPool)

  datatype Runtime = Runtime(cfg: Config, routes: seq<CompiledRoute>, maxInFlight: int, maxBody: int,
                             authorizer: Authorizer)

  // ---------- One upstream, one route ----------

  function OrDefault(x: int, default: int): int {
    if x <= 0 then default else x
  }

  function FirstBadURL(urls: seq<string>, parse: Parser): Option<string> {
    if urls == [] then None
    else if !Absolute(parse, urls[0]) then Some(urls[0])
    else FirstBadURL(urls[1..], parse)
  }

  function Endpoints(urls: seq<string>, parse: Parser): (r: seq<Url>)
    requires FirstBadURL(urls, parse).None?
    ensures |r| == |urls|
  {
    if urls == [] then [] else [parse(urls[0]).value] + Endpoints(urls[1..], parse)
  }

  function CompilePool(u: Upstream, parse: Parser): CompiledPool
    requires FirstBadURL(u.urls.Elems(), parse).None?
  {
    CompiledPool(u.name, Endpoints(u.urls.Elems(), parse), OrDefault(u.dialTimeout, 5 * SECOND),
         OrDefault(u.requestTimeout, 30 * SECOND), u.healthPath, OrDefault(u.healthInterval, 10 * SECOND),
         if u.retryAttempts < 0 then 0 else u.retryAttempts,
         OrDefault(u.breakerThreshold, 5), OrDefault(u.breakerCooldown, 10 * SECOND))
  }

  /** The pools of a list of upstreams, given those already made, or the first fault. */
  function CompilePools(upstreams: seq<Upstream>, parse: Parser, made: map<string, CompiledPool>)
    : Result<map<string, CompiledPool>, Error>
  {
    if upstreams == [] then Success(made)
    else
      var u := upstreams[0];
      if u.name in made then Failure(DuplicateUpstream(u.name))
      else if u.urls.Elems() == [] then Failure(NoURLs(u.name))
      else match FirstBadURL(u.urls.Elems(), parse)
        case Some(url) => Failure(InvalidURL(u.name, url))
        case None => CompilePools(upstreams[1..], parse, made[u.name := CompilePool(u, parse)])
  }

  function CompileRoute(r: Route, env: Env, pool: CompiledPool): CompiledRoute {
    CompiledRoute(r.name, env.normalizeHost(r.host), if r.pathPrefix == "" then "/" else r.pathPrefix,
                  set verb | verb in r.verbs.Elems() :: env.upper(verb),
                  if r.headers.NoHeaders? then map[] else r.headers.entries,
                  r.requireAuth, r.scopes.Elems(), pool)
  }

  function CompileRoutes(routes: seq<Route>, env: Env, pools: map<string, CompiledPool>)
    : Result<seq<CompiledRoute>, Error>
  {
    if routes == [] then Success([])
    else if routes[0].upstream !in pools then Failure(UnknownUpstream(routes[0].name, routes[0].upstream))
    else match CompileRoutes(routes[1..], env, pools)
      case Failure(e) => Failure(e)
      case Success(rest) => Success([CompileRoute(routes[0], env, pools[routes[0].upstream])] + rest)
  }

  /** The whole compilation. */
  function Compile(env: Env, cfg: Config, authorizer: Authorizer): Result<Runtime, Error> {
    match Validation(cfg, env.parse)
    case Some(fault) => Failure(Invalid(fault))
    case None =>
      match CompilePools(cfg.upstreams.Elems(), env.parse, map[])
      case Failure(e) => Failure(e)
      case Success(pools) =>
        match CompileRoutes(cfg.routes.Elems(), env, pools)
        case Failure(e) => Failure(e)
        case Success(routes) =>
          Success(Runtime(Clone(cfg), routes, cfg.limits.maxInFlight, cfg.limits.maxBodyBytes, authorizer))
  }

  function Reconfigured(env: Env, current: Option<Runtime>, cfg: Config): Result<Runtime, Error> {
    if current.Some? && (current.value.cfg.server != cfg.server || current.value.cfg.auth != cfg.auth
                         || current.value.cfg.cluster != cfg.cluster) then Failure(RestartRequired)
    else Compile(env, cfg, if current.None? then None else current.value.authorizer)
  }

  // ---------- The server ----------

  class Server {
    const env: Env
    var runtime: Option<Runtime>

    constructor (env: Env)
      ensures this.env == env && runtime.None?
    {
      this.env := env;
      runtime := None;
    }

    method ReconfigureWithAuthorizer(cfg: Config, authorizer: Authorizer) returns (err: Option<Error>)
      modifies this
      ensures match Compile(env, cfg, authorizer)
              case Success(state) => err.None? && runtime == Some(state)
              case Failure(e) => err == Some(e) && runtime == old(runtime)
    {
      var fault := Validate(cfg, env.parse);
      if fault.Some? {
        return Some(Invalid(fault.value));
      }
      var pools: map<string, CompiledPool> := map[];
      var upstreams := cfg.upstreams.Elems();
      for i := 0 to |upstreams|
        invariant CompilePools(upstreams, env.parse, map[]) == CompilePools(upstreams[i..], env.parse, pools)
        invariant runtime == old(runtime)
      {
        var u := upstreams[i];
        if u.name in pools {
          return Some(DuplicateUpstream(u.name));
        }
        if u.urls.Elems() == [] {
          return Some(NoURLs(u.name));
        }
        var bad, endpoints := ParseEndpoints(u.urls.Elems());
        if bad.Some? {
          return Some(InvalidURL(u.name, bad.value));
        }
        var dialTimeout := u.dialTimeout;
        if dialTimeout <= 0 { dialTimeout := 5 * SECOND; }
        var requestTimeout := u.requestTimeout;
        if requestTimeout <= 0 { requestTimeout := 30 * SECOND; }
        var healthInterval := u.healthInterval;
        if healthInterval <= 0 { healthInterval := 10 * SECOND; }
        var attempts := u.retryAttempts;
        if attempts < 0 { attempts := 0; }
        var threshold := u.breakerThreshold;
        if threshold <= 0 { threshold := 5; }
        var cooldown := u.breakerCooldown;
        if cooldown <= 0 { cooldown := 10 * SECOND; }
        pools := pools[u.name := CompiledPool(u.name, endpoints, dialTimeout, requestTimeout, u.healthPath,
                                              healthInterval, attempts, threshold, cooldown)];
        assert upstreams[i..][1..] == upstreams[i + 1..];
      }
      var failed, routes := ResolveRoutes(cfg.routes.Elems(), pools);
      if failed.Some? {
        return failed;
      }
      runtime := Some(Runtime(Clone(cfg), routes, cfg.limits.maxInFlight, cfg.limits.maxBodyBytes, authorizer));
      return None;
    }

    method ParseEndpoints(urls: seq<string>) returns (bad: Option<string>, endpoints: seq<Url>)
      ensures bad == FirstBadURL(urls, env.parse)
      ensures bad.None? ==> endpoints == Endpoints(urls, env.parse)
    {
      bad, endpoints := None, [];
      for i := 0 to |urls|
        invariant FirstBadURL(urls, env.parse) == FirstBadURL(urls[i..], env.parse)
        invariant FirstBadURL(urls, env.parse).None? ==>
                    Endpoints(urls, env.parse) == endpoints + Endpoints(urls[i..], env.parse)
      {
        var target := env.parse(urls[i]);
        if target.None? || target.value.scheme == "" || target.value.host == "" {
          return Some(urls[i]), [];
        }
        endpoints := endpoints + [target.value];
        assert urls[i..][1..] == urls[i + 1..];
      }
    }

    method ResolveRoutes(declared: seq<Route>, pools: map<string, CompiledPool>)
      returns (err: Option<Error>, routes: seq<CompiledRoute>)
      ensures match CompileRoutes(declared, env, pools)
              case Success(rs) => err.None? && routes == rs
              case Failure(e) => err == Some(e)
    {
      err, routes := None, [];
      for i := 0 to |declared|
        invariant |routes| == i
        invariant forall k :: 0 <= k < i ==>
                    && declared[k].upstream in pools
                    && routes[k] == CompileRoute(declared[k], env, pools[declared[k].upstream])
      {
        var route := declared[i];
        if route.upstream !in pools {
          FirstUnknownReported(declared, env, pools, i);
          return Some(UnknownUpstream(route.name, route.upstream)), [];
        }
        var prefix := route.pathPrefix;
        if prefix == "" { prefix := "/"; }
        var verbs := set verb | verb in route.verbs.Elems() :: env.upper(verb);
        var headers := if route.headers.NoHeaders? then map[] else route.headers.entries;
        var compiled := CompiledRoute(route.name, env.normalizeHost(route.host), prefix, verbs, headers,
                                      route.requireAuth, route.scopes.Elems(), pools[route.upstream]);
        routes := routes + [compiled];
      }
      RoutesCompile(declared, env, pools);
      assert routes == CompileRoutes(declared, env, pools).value;
    }

    /** Listeners, authentication and cluster settings may not change, and the authorizer stays. */
    method Reconfigure(cfg: Config) returns (err: Option<Error>)
      modifies this
      ensures match Reconfigured(env, old(runtime), cfg)
              case Success(state) => err.None? && runtime == Some(state)
              case Failure(e) => err == Some(e) && runtime == old(runtime)
    {
      if runtime.Some? && (runtime.value.cfg.server != cfg.server || runtime.value.cfg.auth != cfg.auth
                           || runtime.value.cfg.cluster != cfg.cluster) {
        return Some(RestartRequired);
      }
      err := ReconfigureWithAuthorizer(cfg, if runtime.None? then None else runtime.value.authorizer);
    }
  }

  // ---------- What compiles, and into what ----------

  lemma {:induction false} AllURLsGood(urls: seq<string>, parse: Parser)
    ensures FirstBadURL(urls, parse).None? <==> forall i :: 0 <= i < |urls| ==> Absolute(parse, urls[i])
  {
    if urls == [] {
    } else {
      AllURLsGood(urls[1..], parse);
      assert forall i :: 1 <= i < |urls| ==> urls[i] == urls[1..][i - 1];
      assert forall i :: 0 <= i < |urls| - 1 ==> urls[1..][i] == urls[i + 1];
    }
  }

  lemma {:induction false} EndpointsInOrder(urls: seq<string>, parse: Parser)
    requires FirstBadURL(urls, parse).None?
    ensures forall i :: 0 <= i < |urls| ==> Some(Endpoints(urls, parse)[i]) == parse(urls[i])
  {
    if urls == [] {
    } else {
      EndpointsInOrder(urls[1..], parse);
    }
  }

  ghost predicate UsableUpstream(u: Upstream, parse: Parser) {
    u.urls.Elems() != [] && forall k :: 0 <= k < |u.urls.Elems()| ==> Absolute(parse, u.urls.Elems()[k])
  }

  ghost predicate UsableUpstreams(upstreams: seq<Upstream>, parse: Parser) {
    && (forall i, j :: 0 <= i < j < |upstreams| ==> upstreams[i].name != upstreams[j].name)
    && (forall i :: 0 <= i < |upstreams| ==> UsableUpstream(upstreams[i], parse))
  }

  ghost predicate NewNames(upstreams: seq<Upstream>, made: map<string, CompiledPool>) {
    forall i :: 0 <= i < |upstreams| ==> upstreams[i].name !in made
  }

  /** Looking at the first upstream, then at the rest. */
  lemma UsableFirst(upstreams: seq<Upstream>, parse: Parser, made: map<string, CompiledPool>, pool: CompiledPool)
    requires upstreams != []
    ensures UsableUpstreams(upstreams, parse) && NewNames(upstreams, made) <==>
            && UsableUpstream(upstreams[0], parse) && upstreams[0].name !in made
            && UsableUpstreams(upstreams[1..], parse) && NewNames(upstreams[1..], made[upstreams[0].name := pool])
  {
  }

  /** Pools are made exactly when the upstreams have new, distinct names and absolute URLs. */
  lemma {:induction false} PoolsCompileIff(upstreams: seq<Upstream>, parse: Parser, made: map<string, CompiledPool>)
    ensures CompilePools(upstreams, parse, made).Success? <==>
            UsableUpstreams(upstreams, parse) && NewNames(upstreams, made)
  {
    if upstreams == [] {
    } else {
      var u := upstreams[0];
      AllURLsGood(u.urls.Elems(), parse);
      if FirstBadURL(u.urls.Elems(), parse).None? {
        UsableFirst(upstreams, parse, made, CompilePool(u, parse));
        PoolsCompileIff(upstreams[1..], parse, made[u.name := CompilePool(u, parse)]);
      }
    }
  }

  /** No pool is lost or replaced, and none is made that no upstream names. */
  lemma {:induction false} PoolsKept(upstreams: seq<Upstream>, parse: Parser, made: map<string, CompiledPool>)
    requires CompilePools(upstreams, parse, made).Success?
    ensures var pools := CompilePools(upstreams, parse, made).value;
            && (forall name :: name in made ==> name in pools && pools[name] == made[name])
            && (forall name :: name in pools ==>
                  name in made || exists i :: 0 <= i < |upstreams| && upstreams[i].name == name)
  {
    if upstreams == [] {
    } else {
      var rest := upstreams[1..];
      PoolsKept(rest, parse, made[upstreams[0].name := CompilePool(upstreams[0], parse)]);
      hide CompilePool, FirstBadURL;
      assert forall i :: 0 <= i < |rest| ==> rest[i] == upstreams[i + 1];
    }
  }

  /** The pool of an upstream, under its name. */
  predicate HasPool(u: Upstream, parse: Parser, pools: map<string, CompiledPool>) {
    && FirstBadURL(u.urls.Elems(), parse).None?
    && u.name in pools
    && pools[u.name] == CompilePool(u, parse)
  }

  /** And each upstream has its pool. */
  lemma {:induction false} PoolsCompile(upstreams: seq<Upstream>, parse: Parser, made: map<string, CompiledPool>)
    requires CompilePools(upstreams, parse, made).Success?
    ensures forall i :: 0 <= i < |upstreams| ==>
              HasPool(upstreams[i], parse, CompilePools(upstreams, parse, made).value)
  {
    if upstreams == [] {
    } else {
      var u, rest := upstreams[0], upstreams[1..];
      var made' := made[u.name := CompilePool(u, parse)];
      PoolsKept(rest, parse, made');
      PoolsCompile(rest, parse, made');
      assert u.name in made';
      assert HasPool(u, parse, CompilePools(upstreams, parse, made).value);
      hide HasPool;
      assert forall i :: 1 <= i < |upstreams| ==> upstreams[i] == rest[i - 1];
    }
  }

  ghost predicate Repeated(upstreams: seq<Upstream>, made: map<string, CompiledPool>, i: int)
    requires 0 <= i < |upstreams|
  {
    upstreams[i].name in made || exists k :: 0 <= k < i && upstreams[k].name == upstreams[i].name
  }

  ghost predicate Unusable(upstreams: seq<Upstream>, parse: Parser, made: map<string, CompiledPool>, i: int)
    requires 0 <= i < |upstreams|
  {
    || Repeated(upstreams, made, i)
    || upstreams[i].urls.Elems() == []
    || exists k :: 0 <= k < |upstreams[i].urls.Elems()| && !Absolute(parse, upstreams[i].urls.Elems()[k])
  }

  /** Upstream i is the first that repeats a name, has no URL, or has a URL that is not absolute. */
  ghost predicate FirstUnusable(upstreams: seq<Upstream>, parse: Parser, made: map<string, CompiledPool>, i: int) {
    && 0 <= i < |upstreams| && Unusable(upstreams, parse, made, i)
    && forall j :: 0 <= j < i ==> !Unusable(upstreams, parse, made, j)
  }

  lemma RepeatedInRest(upstreams: seq<Upstream>, made: map<string, CompiledPool>, pool: CompiledPool, i: int)
    requires 0 <= i < |upstreams| - 1
    ensures Repeated(upstreams[1..], made[upstreams[0].name := pool], i) <==> Repeated(upstreams, made, i + 1)
  {
    var rest := upstreams[1..];
    if k :| 0 <= k < i + 1 && upstreams[k].name == upstreams[i + 1].name {
      if k > 0 { assert rest[k - 1].name == rest[i].name; }
    }
    if k :| 0 <= k < i && rest[k].name == rest[i].name {
      assert upstreams[k + 1].name == upstreams[i + 1].name;
    }
  }

  lemma {:induction false} BadURLIsFirst(urls: seq<string>, parse: Parser) returns (k: int)
    requires FirstBadURL(urls, parse).Some?
    ensures 0 <= k < |urls| && FirstBadURL(urls, parse) == Some(urls[k]) && !Absolute(parse, urls[k])
    ensures forall j :: 0 <= j < k ==> Absolute(parse, urls[j])
  {
    if !Absolute(parse, urls[0]) {
      k := 0;
    } else {
      k := BadURLIsFirst(urls[1..], parse);
      assert forall j :: 0 < j < |urls| ==> urls[j] == urls[1..][j - 1];
      k := k + 1;
    }
  }

  /** The fault that is reported is that of the first unusable upstream: a repeated name before missing
      URLs, and those before the first URL that is not absolute. */
  lemma {:induction false} FirstUnusableReported(upstreams: seq<Upstream>, parse: Parser,
                                                 made: map<string, CompiledPool>)
    returns (i: int)
    requires CompilePools(upstreams, parse, made).Failure?
    ensures FirstUnusable(upstreams, parse, made, i)
    ensures var u, error := upstreams[i], CompilePools(upstreams, parse, made).error;
            if Repeated(upstreams, made, i) then error == DuplicateUpstream(u.name)
            else if u.urls.Elems() == [] then error == NoURLs(u.name)
            else exists k :: && 0 <= k < |u.urls.Elems()| && error == InvalidURL(u.name, u.urls.Elems()[k])
                             && !Absolute(parse, u.urls.Elems()[k])
                             && forall j :: 0 <= j < k ==> Absolute(parse, u.urls.Elems()[j])
  {
    var u := upstreams[0];
    AllURLsGood(u.urls.Elems(), parse);
    if u.name in made || u.urls.Elems() == [] {
      i := 0;
    } else if FirstBadURL(u.urls.Elems(), parse).Some? {
      i := 0;
      var k := BadURLIsFirst(u.urls.Elems(), parse);
    } else {
      var pool := CompilePool(u, parse);
      var rest, made' := upstreams[1..], made[u.name := pool];
      i := FirstUnusableReported(rest, parse, made');
      forall j | 0 <= j < |rest| ensures Repeated(rest, made', j) <==> Repeated(upstreams, made, j + 1) {
        RepeatedInRest(upstreams, made, pool, j);
      }
      i := i + 1;
      forall j | 0 <= j < i ensures !Unusable(upstreams, parse, made, j) {
        if j > 0 { assert !Unusable(rest, parse, made', j - 1); }
      }
    }
  }

  lemma {:induction false} RoutesCompile(routes: seq<Route>, env: Env, pools: map<string, CompiledPool>)
    ensures CompileRoutes(routes, env, pools).Success? <==>
            forall i :: 0 <= i < |routes| ==> routes[i].upstream in pools
    ensures CompileRoutes(routes, env, pools).Success? ==>
            var compiled := CompileRoutes(routes, env, pools).value;
            && |compiled| == |routes|
            && forall i :: 0 <= i < |routes| ==> compiled[i] == CompileRoute(routes[i], env, pools[routes[i].upstream])
  {
    if routes == [] {
    } else {
      RoutesCompile(routes[1..], env, pools);
      assert forall i :: 1 <= i < |routes| ==> routes[i] == routes[1..][i - 1];
      assert forall i :: 0 <= i < |routes| - 1 ==> routes[1..][i] == routes[i + 1];
    }
  }

  lemma {:induction false} FirstUnknownReported(routes: seq<Route>, env: Env, pools: map<string, CompiledPool>, i: nat)
    requires i < |routes| && routes[i].upstream !in pools
    requires forall k :: 0 <= k < i ==> routes[k].upstream in pools
    ensures CompileRoutes(routes, env, pools) == Failure(UnknownUpstream(routes[i].name, routes[i].upstream))
  {
    if i == 0 {
    } else {
      FirstUnknownReported(routes[1..], env, pools, i - 1);
    }
  }

  ghost predicate RoutesResolve(routes: seq<Route>, upstreams: seq<Upstream>) {
    forall i :: 0 <= i < |routes| ==> exists j :: 0 <= j < |upstreams| && upstreams[j].name == routes[i].upstream
  }

  ghost predicate Compilable(env: Env, cfg: Config) {
    && Acceptable(cfg, env.parse)
    && UsableUpstreams(cfg.upstreams.Elems(), env.parse)
    && RoutesResolve(cfg.routes.Elems(), cfg.upstreams.Elems())
  }

  lemma {:induction false} RouteFaults(routes: seq<Route>, env: Env, pools: map<string, CompiledPool>)
    ensures CompileRoutes(routes, env, pools).Failure? ==> CompileRoutes(routes, env, pools).error.UnknownUpstream?
  {
    if routes == [] {
    } else {
      RouteFaults(routes[1..], env, pools);
    }
  }

  /** Validation comes first, and its fault is passed on. */
  lemma InvalidFirst(env: Env, cfg: Config, authorizer: Authorizer)
    ensures Validation(cfg, env.parse).Some? <==>
            Compile(env, cfg, authorizer).Failure? && Compile(env, cfg, authorizer).error.Invalid?
    ensures Validation(cfg, env.parse).Some? ==>
              Compile(env, cfg, authorizer) == Failure(Invalid(Validation(cfg, env.parse).value))
  {
    if CompilePools(cfg.upstreams.Elems(), env.parse, map[]).Failure? {
      var i := FirstUnusableReported(cfg.upstreams.Elems(), env.parse, map[]);
    } else {
      RouteFaults(cfg.routes.Elems(), env, CompilePools(cfg.upstreams.Elems(), env.parse, map[]).value);
    }
  }

  /** The exact condition under which a configuration can be served. */
  lemma CompilesIff(env: Env, cfg: Config, authorizer: Authorizer)
    ensures Compile(env, cfg, authorizer).Success? <==> Compilable(env, cfg)
  {
    var upstreams, routes := cfg.upstreams.Elems(), cfg.routes.Elems();
    ValidationMeansAcceptable(cfg, env.parse);
    PoolsCompileIff(upstreams, env.parse, map[]);
    if CompilePools(upstreams, env.parse, map[]).Success? {
      PoolsKept(upstreams, env.parse, map[]);
      PoolsCompile(upstreams, env.parse, map[]);
      RoutesCompile(routes, env, CompilePools(upstreams, env.parse, map[]).value);
    }
  }

  /** A running server takes a configuration exactly if it compiles and repeats the server, authentication and
      cluster sections; it keeps its authorizer.  Without a runtime there is none of either to keep. */
  lemma ReconfiguresExactly(env: Env, current: Option<Runtime>, cfg: Config)
    ensures Reconfigured(env, current, cfg).Success? <==>
            && Compilable(env, cfg)
            && (current.Some? ==> && current.value.cfg.server == cfg.server && current.value.cfg.auth == cfg.auth
                                  && current.value.cfg.cluster == cfg.cluster)
    ensures Reconfigured(env, current, cfg).Success? ==>
              Reconfigured(env, current, cfg).value.authorizer ==
              match current case None => None case Some(runtime) => runtime.authorizer
    ensures Reconfigured(env, current, cfg) == Failure(RestartRequired) <==>
            && current.Some?
            && (|| current.value.cfg.server != cfg.server || current.value.cfg.auth != cfg.auth
                || current.value.cfg.cluster != cfg.cluster)
  {
    CompilesIff(env, cfg, if current.None? then None else current.value.authorizer);
    var authorizer := if current.None? then None else current.value.authorizer;
    InvalidFirst(env, cfg, authorizer);
    if Validation(cfg, env.parse).None? {
      if CompilePools(cfg.upstreams.Elems(), env.parse, map[]).Failure? {
        var i := FirstUnusableReported(cfg.upstreams.Elems(), env.parse, map[]);
      } else {
        RouteFaults(cfg.routes.Elems(), env, CompilePools(cfg.upstreams.Elems(), env.parse, map[]).value);
      }
    }
  }

  /** Every pool can pick, retry, open and time out, and probes the URLs of its upstream in order. */
  lemma PoolIsServiceable(u: Upstream, parse: Parser)
    requires UsableUpstream(u, parse)
    ensures FirstBadURL(u.urls.Elems(), parse).None?
    ensures var pool := CompilePool(u, parse);
            && pool.threshold >= 1 && pool.cooldown > 0 && pool.attempts >= 0
            && pool.requestTimeout > 0 && pool.dialTimeout > 0 && pool.healthInterval > 0
            && |pool.endpoints| == |u.urls.Elems()| > 0
            && forall k :: 0 <= k < |pool.endpoints| ==> Some(pool.endpoints[k]) == parse(u.urls.Elems()[k])
  {
    AllURLsGood(u.urls.Elems(), parse);
    EndpointsInOrder(u.urls.Elems(), parse);
  }

  /** What is declared of an upstream is what its pool has; a number that is not positive stands for no retries,
      a threshold of 5, a dial timeout of 5 s, a request timeout of 30 s, or 10 s for the other two. */
  lemma PoolAsDeclared(u: Upstream, parse: Parser)
    requires FirstBadURL(u.urls.Elems(), parse).None?
    ensures var pool := CompilePool(u, parse);
            && pool.name == u.name && pool.healthPath == u.healthPath
            && pool.attempts == (if u.retryAttempts > 0 then u.retryAttempts else 0)
            && pool.threshold == (if u.breakerThreshold > 0 then u.breakerThreshold else 5)
            && pool.cooldown == (if u.breakerCooldown > 0 then u.breakerCooldown else 10_000_000_000)
            && pool.dialTimeout == (if u.dialTimeout > 0 then u.dialTimeout else 5_000_000_000)
            && pool.requestTimeout == (if u.requestTimeout > 0 then u.requestTimeout else 30_000_000_000)
            && pool.healthInterval == (if u.healthInterval > 0 then u.healthInterval else 10_000_000_000)
            && |pool.endpoints| == |u.urls.Elems()|
            && forall k :: 0 <= k < |pool.endpoints| ==> Some(pool.endpoints[k]) == parse(u.urls.Elems()[k])
  {
    EndpointsInOrder(u.urls.Elems(), parse);
  }

  /** A compiled route says what the declared one says, field by field. */
  ghost predicate AsDeclared(compiled: CompiledRoute, r: Route, env: Env) {
    && compiled.name == r.name
    && compiled.host == env.normalizeHost(r.host)
    && compiled.pathPrefix == (if r.pathPrefix == "" then "/" else r.pathPrefix)
    && (forall verb :: verb in compiled.verbs <==>
          exists k :: 0 <= k < |r.verbs.Elems()| && env.upper(r.verbs.Elems()[k]) == verb)
    && compiled.requireAuth == r.requireAuth
    && compiled.scopes == r.scopes.Elems()
    && compiled.headers == (match r.headers case NoHeaders => map[] case HeaderMap(entries) => entries)
    && compiled.pool.name == r.upstream
  }

  lemma RouteAsDeclared(r: Route, env: Env, pool: CompiledPool)
    requires pool.name == r.upstream
    ensures AsDeclared(CompileRoute(r, env, pool), r, env)
  {
    var verbs := CompileRoute(r, env, pool).verbs;
    forall verb
      ensures verb in verbs <==> exists k :: 0 <= k < |r.verbs.Elems()| && env.upper(r.verbs.Elems()[k]) == verb
    {
    }
  }

  /** Route i of the compiled table is declared route i with the pool of the one upstream it names. */
  lemma CompiledRouteMeaning(env: Env, cfg: Config, authorizer: Authorizer, i: int) returns (j: int)
    requires Compile(env, cfg, authorizer).Success? && 0 <= i < |cfg.routes.Elems()|
    ensures 0 <= j < |cfg.upstreams.Elems()| && UsableUpstream(cfg.upstreams.Elems()[j], env.parse)
    ensures cfg.upstreams.Elems()[j].name == cfg.routes.Elems()[i].upstream
    ensures FirstBadURL(cfg.upstreams.Elems()[j].urls.Elems(), env.parse).None?
    ensures var routes := Compile(env, cfg, authorizer).value.routes;
            && |routes| == |cfg.routes.Elems()|
            && routes[i] == CompileRoute(cfg.routes.Elems()[i], env, CompilePool(cfg.upstreams.Elems()[j], env.parse))
            && AsDeclared(routes[i], cfg.routes.Elems()[i], env)
            && routes[i].pool == CompilePool(cfg.upstreams.Elems()[j], env.parse)
  {
    var upstreams, routes := cfg.upstreams.Elems(), cfg.routes.Elems();
    PoolsCompileIff(upstreams, env.parse, map[]);
    PoolsKept(upstreams, env.parse, map[]);
    PoolsCompile(upstreams, env.parse, map[]);
    var pools := CompilePools(upstreams, env.parse, map[]).value;
    RoutesCompile(routes, env, pools);
    assert routes[i].upstream in pools;
    j :| 0 <= j < |upstreams| && upstreams[j].name == routes[i].upstream;
    assert HasPool(upstreams[j], env.parse, pools);
    RouteAsDeclared(routes[i], env, CompilePool(upstreams[j], env.parse));
    hide AsDeclared;
  }

  // ---------- Copies compile alike ----------

  lemma {:induction false} PoolsIgnoreNil(upstreams: seq<Upstream>, parse: Parser, made: map<string, CompiledPool>)
    ensures CompilePools(CloneUpstreams(upstreams), parse, made) == CompilePools(upstreams, parse, made)
  {
    if upstreams == [] {
    } else {
      var u := upstreams[0];
      assert CloneUpstreams(upstreams)[1..] == CloneUpstreams(upstreams[1..]);
      if FirstBadURL(u.urls.Elems(), parse).None? {
        PoolsIgnoreNil(upstreams[1..], parse, made[u.name := CompilePool(u, parse)]);
      }
    }
  }

  lemma {:induction false} RoutesIgnoreNil(routes: seq<Route>, env: Env, pools: map<string, CompiledPool>)
    ensures CompileRoutes(CloneRoutes(routes), env, pools) == CompileRoutes(routes, env, pools)
  {
    if routes == [] {
    } else {
      RoutesIgnoreNil(routes[1..], env, pools);
      var r := routes[0];
      assert forall pool :: CompileRoute(CloneRoute(r), env, pool) == CompileRoute(r, env, pool) by {
        assert CloneRoute(r).verbs.Elems() == r.verbs.Elems();
      }
      assert CloneRoutes(routes)[1..] == CloneRoutes(routes[1..]);
    }
  }

  /** A copy of a configuration compiles to the same runtime, or fails with the same error. */
  lemma CloneCompilesAlike(env: Env, cfg: Config, authorizer: Authorizer)
    ensures Compile(env, Clone(cfg), authorizer) == Compile(env, cfg, authorizer)
  {
    CloneKeepsContent(cfg);
    CloneValidatesAlike(cfg, env.parse);
    PoolsIgnoreNil(cfg.upstreams.Elems(), env.parse, map[]);
    if CompilePools(cfg.upstreams.Elems(), env.parse, map[]).Success? {
      RoutesIgnoreNil(cfg.routes.Elems(), env, CompilePools(cfg.upstreams.Elems(), env.parse, map[]).value);
    }
  }
}
