/** Changing the configuration of a running gateway.  The control plane, the runtime manager and the
    data plane each hold a configuration; a write activates the new one before publishing it.
    `Planes` is the value of all three between two writes. */
module Activation {
  import opened Wrappers
  import opened Config
  import opened DataPlane
  import opened Versions

  datatype Control = Control(config: Config, previous: Option<Config>, version: int, state: string,
                             lastErr: Option<Error>, ready: bool)

  datatype Planes = Planes(control: Control, manager: Config, data: Runtime)

  /** Which settings only a restart can change. */
  predicate SameFixedSections(a: Config, b: Config) {
    a.server == b.server && a.auth == b.auth && a.cluster == b.cluster
  }

  /** What the control plane is wired to: validation, compilation for the data plane, and the text
      of versions, written in entity tags and read in If-Match headers. */
  datatype Gateway = Gateway(validate: Config -> Option<Fault>,
                             compile: (Config, Authorizer) -> Result<Runtime, Error>,
                             tag: int -> string, refuse: (string, int) -> Option<Refusal>)

  function GatewayOf(env: Env): Gateway {
    Gateway(c => Validation(c, env.parse), (c, authorizer) => Compile(env, c, authorizer),
            version => ETag(version), (ifMatch, version) => RequireVersion(ifMatch, version))
  }

  /** The manager's part: the new configurations of manager and data plane, or why not. */
  function Activated(g: Gateway, manager: Config, data: Runtime, candidate: Config): Result<(Config, Runtime), Error> {
    if !SameFixedSections(manager, candidate) || !SameFixedSections(data.cfg, candidate) then Failure(RestartRequired)
    else match g.compile(candidate, data.authorizer)
      case Failure(e) => Failure(e)
      case Success(state) => Success((Clone(candidate), state))
  }

  datatype Op =
    | Replace(body: Option<Config>, ifMatch: string)
    | Rollback(ifMatch: string)
    | Drain

  datatype Reply =
    | Undecodable
    | Unacceptable(fault: Fault)
    | VersionRefused(why: Refusal)
    | NoPrevious
    | ActivationFailed(error: Error)
    | Committed
    | Noted

  /** Activate a configuration and, if that works, publish it. */
  function Install(g: Gateway, p: Planes, candidate: Config, published: Config): (Planes, Reply) {
    match Activated(g, p.manager, p.data, candidate)
    case Failure(e) =>
      (p.(control := p.control.(lastErr := Some(e), state := "failed")), ActivationFailed(e))
    case Success((manager, data)) =>
      (Planes(p.control.(config := published, previous := Some(p.control.config), version := p.control.version + 1,
                         state := "active", lastErr := None), manager, data), Committed)
  }

  function Step(g: Gateway, p: Planes, op: Op): (Planes, Reply) {
    match op
    case Replace(body, ifMatch) =>
      if body.None? then (p, Undecodable)
      else if g.validate(body.value).Some? then (p, Unacceptable(g.validate(body.value).value))
      else if g.refuse(ifMatch, p.control.version).Some? then
        (p, VersionRefused(g.refuse(ifMatch, p.control.version).value))
      else Install(g, p, body.value, Clone(body.value))
    case Rollback(ifMatch) =>
      if g.refuse(ifMatch, p.control.version).Some? then
        (p, VersionRefused(g.refuse(ifMatch, p.control.version).value))
      else if p.control.previous.None? then (p, NoPrevious)
      else Install(g, p, Clone(p.control.previous.value), p.control.previous.value)
    case Drain => (p.(control := p.control.(ready := false, state := "draining")), Noted)
  }

  function Run(g: Gateway, p: Planes, ops: seq<Op>): Planes {
    if |ops| == 0 then p else Step(g, Run(g, p, ops[..|ops| - 1]), ops[|ops| - 1]).0
  }

  /** How a gateway starts. */
  function Boot(g: Gateway, cfg: Config, authorizer: Authorizer): Planes
    requires g.compile(cfg, authorizer).Success?
  {
    Planes(Control(Clone(cfg), None, 0, "bootstrap", None, true), Clone(cfg), g.compile(cfg, authorizer).value)
  }

  function Started(env: Env, cfg: Config, authorizer: Authorizer): Planes
    requires Compile(env, cfg, authorizer).Success?
  {
    Boot(GatewayOf(env), cfg, authorizer)
  }

  /** Where a gateway is after these operations. */
  function Reached(env: Env, cfg: Config, authorizer: Authorizer, ops: seq<Op>): Planes
    requires Compile(env, cfg, authorizer).Success?
  {
    Run(GatewayOf(env), Started(env, cfg, authorizer), ops)
  }

  // ---------- The three objects ----------

  class Manager {
    var config: Config
    const dataPlane: Server

    constructor (config: Config, dataPlane: Server)
      ensures this.config == Clone(config) && this.dataPlane == dataPlane
    {
      this.config := Clone(config);
      this.dataPlane := dataPlane;
    }

    method Activate(candidate: Config) returns (err: Option<Error>)
      requires dataPlane.runtime.Some?
      modifies this, dataPlane
      ensures dataPlane.runtime.Some?
      ensures match Activated(GatewayOf(dataPlane.env), old(config), old(dataPlane.runtime.value), candidate)
              case Success(installed) => err.None? && (config, dataPlane.runtime.value) == installed
              case Failure(e) => err == Some(e) && config == old(config) && dataPlane.runtime == old(dataPlane.runtime)
    {
      hide Validation, Compile, Clone;
      if config.server != candidate.server || config.auth != candidate.auth || config.cluster != candidate.cluster {
        return Some(RestartRequired);
      }
      err := dataPlane.Reconfigure(candidate);
      if err.Some? {
        return;
      }
      config := Clone(candidate);
    }
  }

  class ControlPlane {
    var config: Config
    var previous: Option<Config>
    var version: int
    var state: string
    var lastErr: Option<Error>
    var readyState: bool
    const manager: Manager

    ghost predicate Valid()
      reads this, manager, manager.dataPlane
    {
      manager.dataPlane.runtime.Some?
    }

    ghost function Now(): Planes
      requires Valid()
      reads this, manager, manager.dataPlane
    {
      Planes(Control(config, previous, version, state, lastErr, readyState), manager.config,
             manager.dataPlane.runtime.value)
    }

    constructor (env: Env, cfg: Config, authorizer: Authorizer)
      requires Compile(env, cfg, authorizer).Success?
      ensures Valid() && fresh(manager) && fresh(manager.dataPlane)
      ensures manager.dataPlane.env == env && Now() == Boot(GatewayOf(env), cfg, authorizer)
    {
      var dataPlane := new Server(env);
      var err := dataPlane.ReconfigureWithAuthorizer(cfg, authorizer);
      manager := new Manager(cfg, dataPlane);
      config := Clone(cfg);
      previous, version, state, lastErr, readyState := None, 0, "bootstrap", None, true;
    }

    method SetDraining()
      requires Valid()
      modifies this
      ensures Valid() && Now() == Step(GatewayOf(manager.dataPlane.env), old(Now()), Drain).0
    {
      readyState := false;
      state := "draining";
    }

    method ReplaceConfig(body: Option<Config>, ifMatch: string) returns (reply: Reply)
      requires Valid()
      modifies this, manager, manager.dataPlane
      ensures Valid() && (Now(), reply) == Step(GatewayOf(manager.dataPlane.env), old(Now()), Replace(body, ifMatch))
    {
      hide RequireVersion, Validation, Compile, Clone;
      if body.None? {
        return Undecodable;
      }
      var candidate := body.value;
      var fault := Validate(candidate, manager.dataPlane.env.parse);
      if fault.Some? {
        return Unacceptable(fault.value);
      }
      var refusal := RequireVersion(ifMatch, version);
      if refusal.Some? {
        return VersionRefused(refusal.value);
      }
      var err := manager.Activate(candidate);
      if err.Some? {
        lastErr, state := err, "failed";
        return ActivationFailed(err.value);
      }
      previous := Some(config);
      config := Clone(candidate);
      version := version + 1;
      state, lastErr := "active", None;
      return Committed;
    }

    method RollbackConfig(ifMatch: string) returns (reply: Reply)
      requires Valid()
      modifies this, manager, manager.dataPlane
      ensures Valid() && (Now(), reply) == Step(GatewayOf(manager.dataPlane.env), old(Now()), Rollback(ifMatch))
    {
      hide RequireVersion, Validation, Compile, Clone;
      var refusal := RequireVersion(ifMatch, version);
      if refusal.Some? {
        return VersionRefused(refusal.value);
      }
      if previous.None? {
        return NoPrevious;
      }
      var err := manager.Activate(Clone(previous.value));
      if err.Some? {
        lastErr, state := err, "failed";
        return ActivationFailed(err.value);
      }
      var current := config;
      config := previous.value;
      previous := Some(current);
      version := version + 1;
      state, lastErr := "active", None;
      return Committed;
    }

    method GetConfig() returns (tag: string, shown: Config)
      ensures tag == ETag(version) && shown == Clone(config)
    {
      return ETag(version), Clone(config);
    }

    /** The readiness reply: a status code and a word, given the answer of a dependency check. */
    method Ready(dependency: Option<(bool, string)>) returns (code: int, status: string)
      ensures code == 200 <==> readyState && (dependency.None? || dependency.value.0)
      ensures code == 200 ==> status == "ready"
      ensures code != 200 ==> code == 503 && status == if readyState then dependency.value.1 else state
    {
      if !readyState {
        return 503, state;
      }
      if dependency.Some? && !dependency.value.0 {
        return 503, dependency.value.1;
      }
      return 200, "ready";
    }
  }

  // ---------- What always holds ----------

  /** All that is assumed of compilation: it does not see the difference between a configuration and
      its copy, keeps a copy and the authorizer, and refuses what validation refuses. */
  ghost predicate Faithful(g: Gateway) {
    && (forall c, a :: g.compile(Clone(c), a) == g.compile(c, a))
    && (forall c, a :: g.compile(c, a).Success? ==>
          && g.compile(c, a).value.cfg == Clone(c)
          && g.compile(c, a).value.authorizer == a
          && g.validate(c).None?)
  }

  lemma GatewayIsFaithful(env: Env)
    ensures Faithful(GatewayOf(env))
  {
    var g := GatewayOf(env);
    forall c, a ensures g.compile(Clone(c), a) == g.compile(c, a) {
      CloneCompilesAlike(env, c, a);
    }
  }

  ghost predicate Activatable(g: Gateway, c: Config, cfg: Config, authorizer: Authorizer) {
    && Clone(c) == c
    && SameFixedSections(c, Clone(cfg))
    && g.compile(c, authorizer).Success?
  }

  /** The three planes hold one and the same configuration, copied, valid and compiled; the kept
      previous one could be activated again; restart-only settings and the authorizer are as booted. */
  ghost predicate Agreement(g: Gateway, p: Planes, cfg: Config, authorizer: Authorizer) {
    && p.control.config == p.manager == p.data.cfg
    && p.data.authorizer == authorizer
    && Activatable(g, p.manager, cfg, authorizer)
    && g.compile(p.manager, authorizer) == Success(p.data)
    && (p.control.previous.Some? ==> Activatable(g, p.control.previous.value, cfg, authorizer))
  }

  lemma BootAgrees(g: Gateway, cfg: Config, authorizer: Authorizer)
    requires Faithful(g) && g.compile(cfg, authorizer).Success?
    ensures Agreement(g, Boot(g, cfg, authorizer), cfg, authorizer)
  {
    CloneKeepsContent(cfg);
  }

  /** Sections equal to those of a copy are themselves as a copy would have them. */
  lemma FixedSectionsCopied(copy: Config, candidate: Config)
    requires Clone(copy) == copy && SameFixedSections(copy, candidate)
    ensures SameFixedSections(Clone(candidate), copy)
  {
  }

  lemma InstallKeepsAgreement(g: Gateway, p: Planes, cfg: Config, authorizer: Authorizer, candidate: Config)
    requires Faithful(g) && Agreement(g, p, cfg, authorizer)
    ensures Agreement(g, Install(g, p, candidate, Clone(candidate)).0, cfg, authorizer)
  {
    CloneKeepsContent(candidate);
    assert g.compile(Clone(candidate), authorizer) == g.compile(candidate, authorizer);
    if SameFixedSections(p.manager, candidate) { FixedSectionsCopied(p.manager, candidate); }
  }

  lemma StepKeepsAgreement(g: Gateway, p: Planes, cfg: Config, authorizer: Authorizer, op: Op)
    requires Faithful(g) && Agreement(g, p, cfg, authorizer)
    ensures Agreement(g, Step(g, p, op).0, cfg, authorizer)
  {
    if op.Replace? && op.body.Some? {
      InstallKeepsAgreement(g, p, cfg, authorizer, op.body.value);
    } else if op.Rollback? && p.control.previous.Some? {
      InstallKeepsAgreement(g, p, cfg, authorizer, p.control.previous.value);
    }
  }

  /** In every reachable state the three planes agree. */
  lemma {:induction false} PlanesAlwaysAgree(g: Gateway, cfg: Config, authorizer: Authorizer, ops: seq<Op>)
    requires Faithful(g) && g.compile(cfg, authorizer).Success?
    ensures Agreement(g, Run(g, Boot(g, cfg, authorizer), ops), cfg, authorizer)
  {
    if |ops| == 0 {
      BootAgrees(g, cfg, authorizer);
    } else {
      PlanesAlwaysAgree(g, cfg, authorizer, ops[..|ops| - 1]);
      StepKeepsAgreement(g, Run(g, Boot(g, cfg, authorizer), ops[..|ops| - 1]), cfg, authorizer, ops[|ops| - 1]);
    }
  }

  /** Exactly which candidates a gateway activates: those that can be compiled and repeat the
      running restart-only sections to the letter, nil slices included. */
  lemma ActivatesIff(env: Env, p: Planes, cfg: Config, authorizer: Authorizer, candidate: Config)
    requires Agreement(GatewayOf(env), p, cfg, authorizer)
    ensures Activated(GatewayOf(env), p.manager, p.data, candidate).Success? <==>
            SameFixedSections(p.manager, candidate) && Compilable(env, candidate)
  {
    CompilesIff(env, candidate, authorizer);
  }

  /** A rollback with the current version and something to go back to never fails where the planes agree. */
  lemma RollbackCommits(g: Gateway, p: Planes, cfg: Config, authorizer: Authorizer, ifMatch: string)
    requires Faithful(g) && Agreement(g, p, cfg, authorizer)
    requires p.control.previous.Some? && g.refuse(ifMatch, p.control.version).None?
    ensures var (q, reply) := Step(g, p, Rollback(ifMatch));
            && reply == Committed && Agreement(g, q, cfg, authorizer)
            && q.control.config == p.control.previous.value && q.control.previous == Some(p.control.config)
            && q.control.version == p.control.version + 1
  {
    StepKeepsAgreement(g, p, cfg, authorizer, Rollback(ifMatch));
  }

  /** So it never fails in any reachable state, and doing it twice returns every plane to where it was. */
  lemma RollbackNeverFails(g: Gateway, cfg: Config, authorizer: Authorizer, ops: seq<Op>, p: Planes,
                           ifMatch: string, again: string)
    requires Faithful(g) && g.compile(cfg, authorizer).Success?
    requires p == Run(g, Boot(g, cfg, authorizer), ops)
    requires p.control.previous.Some? && g.refuse(ifMatch, p.control.version).None?
    requires g.refuse(again, p.control.version + 1).None?
    ensures var (q, reply) := Step(g, p, Rollback(ifMatch));
            && reply == Committed
            && q.control.config == p.control.previous.value && q.control.previous == Some(p.control.config)
            && var (r, reply') := Step(g, q, Rollback(again));
              && reply' == Committed
              && r.manager == p.manager && r.data == p.data
              && r.control.config == p.control.config && r.control.previous == p.control.previous
              && r.control.version == p.control.version + 2
  {
    hide Step;
    PlanesAlwaysAgree(g, cfg, authorizer, ops);
    RollbackCommits(g, p, cfg, authorizer, ifMatch);
    var q := Step(g, p, Rollback(ifMatch)).0;
    RollbackCommits(g, q, cfg, authorizer, again);
  }

  /** Replacing and rolling back restores the configuration that was replaced, on every plane. */
  lemma ReplaceThenRollback(g: Gateway, p: Planes, cfg: Config, authorizer: Authorizer,
                            candidate: Config, ifMatch: string, again: string)
    requires Faithful(g) && Agreement(g, p, cfg, authorizer)
    requires Step(g, p, Replace(Some(candidate), ifMatch)).1.Committed?
    requires g.refuse(again, p.control.version + 1).None?
    ensures var q := Step(g, p, Replace(Some(candidate), ifMatch)).0;
            var (r, reply) := Step(g, q, Rollback(again));
            && q.control.config == Clone(candidate)
            && reply == Committed
            && r.manager == p.manager && r.data == p.data && r.control.config == p.control.config
            && r.control.previous == Some(Clone(candidate))
  {
    StepKeepsAgreement(g, p, cfg, authorizer, Replace(Some(candidate), ifMatch));
  }

  lemma ScopesDoNotMatter(c: Config, parse: Parser)
    ensures Validation(c.(auth := c.auth.(allowedScopes := Items([]))), parse) == Validation(c, parse)
  {
  }

  /** The restart check is by representation, not by content: sending back the running configuration
      with an empty list of scopes written as a list, where the copy holds nil, is refused. */
  lemma EmptyListIsNotNil(env: Env, p: Planes, cfg: Config, authorizer: Authorizer, ifMatch: string)
    requires Agreement(GatewayOf(env), p, cfg, authorizer)
    requires p.control.config.auth.allowedScopes.Elems() == []
    ensures var same := p.control.config.(auth := p.control.config.auth.(allowedScopes := Items([])));
            && Clone(same) == Clone(p.control.config)
            && (RequireVersion(ifMatch, p.control.version).None? ==>
                  Step(GatewayOf(env), p, Replace(Some(same), ifMatch)).1 == ActivationFailed(RestartRequired))
  {
    hide Compile, RequireVersion, Validation;
    var c := p.control.config;
    var same := c.(auth := c.auth.(allowedScopes := Items([])));
    GatewayIsFaithful(env);
    assert Clone(c).auth.allowedScopes == c.auth.allowedScopes == Nil;
    assert GatewayOf(env).validate(c).None?;
    ScopesDoNotMatter(c, env.parse);
  }

  // ---------- What a reply says ----------

  /** A gateway starts ready, at version 0, with nothing to go back to. */
  lemma StartsReady(env: Env, cfg: Config, authorizer: Authorizer)
    requires Compile(env, cfg, authorizer).Success?
    ensures Started(env, cfg, authorizer).control == Control(Clone(cfg), None, 0, "bootstrap", None, true)
  {
  }

  /** A write is refused before anything is tried, and then changes nothing at all, exactly if its body cannot
      be decoded or is invalid, its header does not name the version, or there is nothing to go back to. */
  lemma RefusedExactly(g: Gateway, p: Planes, op: Op)
    requires !op.Drain?
    ensures var (q, reply) := Step(g, p, op);
            (reply.Undecodable? || reply.Unacceptable? || reply.VersionRefused? || reply.NoPrevious?) <==>
            (|| (op.Replace? && (op.body.None? || g.validate(op.body.value).Some?))
             || g.refuse(op.ifMatch, p.control.version).Some?
             || (op.Rollback? && p.control.previous.None?))
    ensures var (q, reply) := Step(g, p, op);
            !reply.Committed? && !reply.ActivationFailed? ==> q == p
  {
  }

  /** Of a write that is tried, the status tells the outcome: "failed" with the error and everything else as it
      was, or "active" without one, the version one higher, the body or the previous configuration in force,
      and the one it replaced kept. */
  lemma StatusTellsOutcome(g: Gateway, p: Planes, op: Op)
    ensures var (q, reply) := Step(g, p, op);
            && (reply.ActivationFailed? ==>
                  q == p.(control := p.control.(state := "failed", lastErr := Some(reply.error))))
            && (reply.Committed? ==>
                  && (op.Replace? ==> op.body.Some? && q.control.config == Clone(op.body.value))
                  && (op.Rollback? ==> Some(q.control.config) == p.control.previous)
                  && q.control == Control(q.control.config, Some(p.control.config), p.control.version + 1, "active",
                                          None, p.control.ready))
            && (op.Drain? <==> reply.Noted?)
            && (op.Drain? ==> q == p.(control := p.control.(state := "draining", ready := false)))
  {
  }

  // ---------- Versions over runs ----------

  /** All that is assumed of tags: one sent back is accepted exactly by the version it names, no header is
      accepted by two versions, and the missing one by none. */
  ghost predicate ExactTags(g: Gateway) {
    && (forall v, version :: MIN_INT64 <= v <= MAX_INT64 ==> (g.refuse(g.tag(v), version).None? <==> v == version))
    && (forall h, v, w :: g.refuse(h, v).None? && g.refuse(h, w).None? ==> v == w)
    && (forall v :: g.refuse("", v).Some?)
  }

  lemma GatewayHasExactTags(env: Env)
    ensures ExactTags(GatewayOf(env))
  {
    hide RequireVersion, ETag;
    forall v, version | MIN_INT64 <= v <= MAX_INT64
      ensures RequireVersion(ETag(v), version).None? <==> v == version
    {
      TagAcceptedIff(v, version);
    }
    forall h, v, w | RequireVersion(h, v).None? && RequireVersion(h, w).None? ensures v == w {
      HeaderNamesOneVersion(h, v, w);
    }
    forall v ensures RequireVersion("", v).Some? {
      NoDigitRefused("", v);
    }
  }

  /** The steps of a run that commit a write. */
  function Commits(g: Gateway, p: Planes, ops: seq<Op>): nat {
    if |ops| == 0 then 0
    else Commits(g, p, ops[..|ops| - 1])
         + if Step(g, Run(g, p, ops[..|ops| - 1]), ops[|ops| - 1]).1.Committed? then 1 else 0
  }

  /** The version counts the committed writes; as long as every write is refused, at whatever stage,
      the version stands still and no plane changes its configuration.  And a gateway that is
      draining never becomes ready again, whatever its state is called. */
  lemma {:induction false} VersionCountsCommits(g: Gateway, p: Planes, ops: seq<Op>)
    ensures var q := Run(g, p, ops);
            && q.control.version == p.control.version + Commits(g, p, ops)
            && (q.control.version == p.control.version ==>
                  && q.control.config == p.control.config && q.control.previous == p.control.previous
                  && q.manager == p.manager && q.data == p.data)
            && (!p.control.ready ==> !q.control.ready)
  {
    hide Clone;
    if |ops| == 0 {
    } else {
      VersionCountsCommits(g, p, ops[..|ops| - 1]);
    }
  }

  /** No lost update: a write that carries the tag of an earlier read, and is committed after any
      other operations, replaces exactly the configuration that the read showed. */
  lemma NoLostUpdate(g: Gateway, p: Planes, ops: seq<Op>, write: Op)
    requires ExactTags(g) && MIN_INT64 <= p.control.version <= MAX_INT64
    requires !write.Drain? && write.ifMatch == g.tag(p.control.version)
    requires Step(g, Run(g, p, ops), write).1.Committed?
    ensures Commits(g, p, ops) == 0
    ensures Run(g, p, ops).control.config == p.control.config
    ensures Step(g, Run(g, p, ops), write).0.control.version == p.control.version + 1
    ensures Step(g, Run(g, p, ops), write).0.control.previous == Some(p.control.config)
  {
    VersionCountsCommits(g, p, ops);
  }

  /** A committed write carries a header, and one that its version accepts. */
  lemma CommitsAreConditional(g: Gateway, p: Planes, write: Op)
    requires ExactTags(g) && Step(g, p, write).1.Committed?
    ensures !write.Drain? && g.refuse(write.ifMatch, p.control.version).None? && write.ifMatch != ""
  {
  }

  /** Of two writes carrying the same header, in whatever form, at most one is committed, whatever happens in
      between. */
  lemma OneWritePerVersion(g: Gateway, p: Planes, first: Op, ops: seq<Op>, second: Op)
    requires ExactTags(g)
    requires !first.Drain? && !second.Drain? && first.ifMatch == second.ifMatch
    requires Step(g, p, first).1.Committed?
    ensures !Step(g, Run(g, Step(g, p, first).0, ops), second).1.Committed?
  {
    var q := Step(g, p, first).0;
    VersionCountsCommits(g, q, ops);
  }

  // ---------- The tag in the reply of a write ----------

  /** That tag is read after the lock is released, so other operations may come in between.  It is
      never older than the write, and it names the written configuration if it names that version. */
  lemma ReplyTag(g: Gateway, p: Planes, write: Op, between: seq<Op>)
    requires Step(g, p, write).1.Committed?
    ensures var q := Step(g, p, write).0;
            var seen := Run(g, q, between).control;
            && seen.version >= p.control.version + 1
            && (seen.version == p.control.version + 1 ==> seen.config == q.control.config)
  {
    VersionCountsCommits(g, Step(g, p, write).0, between);
  }

  lemma {:induction false} RunAppends(g: Gateway, p: Planes, a: seq<Op>, b: seq<Op>)
    ensures Run(g, Run(g, p, a), b) == Run(g, p, a + b)
    ensures Commits(g, p, a + b) == Commits(g, p, a) + Commits(g, Run(g, p, a), b)
  {
    hide Step;
    if |b| == 0 {
      assert a + b == a;
    } else {
      assert (a + b)[..|a + b| - 1] == a + b[..|b| - 1];
      RunAppends(g, p, a, b[..|b| - 1]);
    }
  }

  /** When a client may go on from that tag: a committed write that carries it replaces what the first
      write installed, with nothing committed in between, if and only if the tag is one more than the
      version that the first write was made against, which the client can see before it writes again. */
  lemma ReplyTagSafeIff(g: Gateway, p: Planes, write: Op, between: seq<Op>, later: seq<Op>, next: Op)
    requires ExactTags(g) && Step(g, p, write).1.Committed? && !next.Drain?
    requires var seen := Run(g, Step(g, p, write).0, between).control;
             MIN_INT64 <= seen.version <= MAX_INT64 && next.ifMatch == g.tag(seen.version)
    requires Step(g, Run(g, Run(g, Step(g, p, write).0, between), later), next).1.Committed?
    ensures var q := Step(g, p, write).0;
            var seen := Run(g, q, between).control;
            && (seen.version == p.control.version + 1 <==> Commits(g, q, between + later) == 0)
            && (seen.version == p.control.version + 1 ==>
                  var last := Run(g, q, between + later);
                  && last.control.config == q.control.config
                  && Step(g, last, next).0.control.previous == Some(q.control.config))
  {
    var q := Step(g, p, write).0;
    RunAppends(g, q, between, later);
    VersionCountsCommits(g, q, between);
    NoLostUpdate(g, Run(g, q, between), later, next);
  }

  /** Three committed writes: the last goes on from the tag in the reply to the first, which was read after the
      second, and replaces what the second installed, which is not what the first did. */
  predicate LosesUpdate(g: Gateway, p: Planes, mine: Op, theirs: Op, next: Op) {
    var q := Step(g, p, mine).0;
    var r := Step(g, q, theirs).0;
    && mine.Replace? && theirs.Replace? && next.Replace?
    && Step(g, p, mine).1.Committed? && Step(g, q, theirs).1.Committed? && Step(g, r, next).1.Committed?
    && next.ifMatch == g.tag(r.control.version)
    && r.control.config != q.control.config
    && Step(g, r, next).0.control.previous == Some(r.control.config)
  }

  /** A client that trusts it can overwrite a change it has never seen: wherever some other
      configuration t can be activated, there are two writers, the second committing before the first
      is answered, such that the first, with the tag of its answer, replaces t and not its own. */
  lemma ReplyTagLosesUpdate(g: Gateway, p: Planes, cfg: Config, authorizer: Authorizer, t: Config)
    returns (mine: Op, theirs: Op, next: Op)
    requires Faithful(g) && ExactTags(g) && Agreement(g, p, cfg, authorizer)
    requires 0 <= p.control.version < MAX_INT64 - 2
    requires Activatable(g, t, cfg, authorizer) && t != p.control.config
    ensures LosesUpdate(g, p, mine, theirs, next)
  {
    hide Clone;
    var c := p.control.config;
    mine := Replace(Some(c), g.tag(p.control.version));
    theirs := Replace(Some(t), g.tag(p.control.version + 1));
    next := Replace(Some(c), g.tag(p.control.version + 2));
    StepKeepsAgreement(g, p, cfg, authorizer, mine);
    StepKeepsAgreement(g, Step(g, p, mine).0, cfg, authorizer, theirs);
  }

  function Toggled(c: Config): Config {
    c.(controlPlane := c.controlPlane.(ui := !c.controlPlane.ui))
  }

  lemma TogglePreserves(env: Env, c: Config)
    requires Compilable(env, c)
    ensures Compilable(env, Toggled(c))
  {
  }

  /** Such a t always exists: the running configuration with the admin UI switched. */
  lemma ToggledIsActivatable(env: Env, p: Planes, cfg: Config, authorizer: Authorizer)
    requires Agreement(GatewayOf(env), p, cfg, authorizer)
    ensures Activatable(GatewayOf(env), Toggled(p.control.config), cfg, authorizer)
    ensures Toggled(p.control.config) != p.control.config
  {
    var c, t := p.control.config, Toggled(p.control.config);
    CompilesIff(env, c, authorizer);
    CompilesIff(env, t, authorizer);
    TogglePreserves(env, c);
  }

  /** Every gateway has such a lost update in every state it can reach, short of a version overflow: the
      other configuration is the running one with the admin UI switched. */
  lemma EveryGatewayLosesUpdates(env: Env, cfg: Config, authorizer: Authorizer, ops: seq<Op>)
    requires Compile(env, cfg, authorizer).Success?
    ensures var g, p := GatewayOf(env), Reached(env, cfg, authorizer, ops);
            p.control.version < MAX_INT64 - 2 ==>
              exists mine, theirs, next :: LosesUpdate(g, p, mine, theirs, next)
  {
    hide Compile, Validation, Step, Run, RequireVersion, ETag;
    var g, p := GatewayOf(env), Reached(env, cfg, authorizer, ops);
    GatewayIsFaithful(env);
    GatewayHasExactTags(env);
    PlanesAlwaysAgree(g, cfg, authorizer, ops);
    VersionCountsCommits(g, Started(env, cfg, authorizer), ops);
    ToggledIsActivatable(env, p, cfg, authorizer);
    if p.control.version < MAX_INT64 - 2 {
      var mine, theirs, next := ReplyTagLosesUpdate(g, p, cfg, authorizer, Toggled(p.control.config));
    }
  }
}
