/** Admission of requests across atomic runtime replacement.
    Each runtime generation has its own channel of in-flight tokens.  A request loads the current
    generation, then tries to place a token in that generation's channel, is served by its routes, body
    limit and authorizer, and takes one token out of the same channel when it is done, however often
    the runtime has been replaced meanwhile. */
module Admission {
  import opened Wrappers
  import opened Config
  import opened DataPlane
  import Routing
  import Serving

  /** A generation: its runtime, and the tokens in the channel of that runtime. */
  datatype Generation = Generation(runtime: Runtime, tokens: int)

  /** What a request is served by. */
  datatype Terms = Terms(route: Option<int>, maxBody: int, authorizer: Authorizer)

  datatype Phase =
    | Loaded(gen: nat)
    | Holding(gen: nat)
    | Serving(gen: nat, request: Routing.Request, terms: Terms)
    | Rejected(gen: nat)
    | Finished(gen: nat)

  /** The last generation is the current one. */
  datatype Gate = Gate(generations: seq<Generation>, requests: map<nat, Phase>)

  datatype Step =
    | Load(r: nat)
    | Admit(r: nat)
    | Route(r: nat, request: Routing.Request, found: Option<int>)
    | Release(r: nat)
    | Replace(env: Env, cfg: Config, authorizer: Authorizer)

  /** Request r holds a token of generation g. */
  predicate Active(s: Gate, r: nat, g: nat) {
    r in s.requests && (s.requests[r].Holding? || s.requests[r].Serving?) && s.requests[r].gen == g
  }

  /** The answer of the route search, as the loop of `Routing.Match` gives it. */
  ghost predicate Finds(routes: seq<CompiledRoute>, q: Routing.Request, found: Option<int>) {
    forall i :: Routing.Best(Serving.Table(routes), q, i) <==> found == Some(i)
  }

  ghost predicate Enabled(s: Gate, step: Step) {
    match step
    case Load(r) => r !in s.requests && |s.generations| > 0
    case Admit(r) => r in s.requests && s.requests[r].Loaded? && s.requests[r].gen < |s.generations|
    case Route(r, q, found) =>
      && r in s.requests && s.requests[r].Holding? && s.requests[r].gen < |s.generations|
      && Finds(s.generations[s.requests[r].gen].runtime.routes, q, found)
    // a receive from a channel waits until the channel holds something
    case Release(r) =>
      && r in s.requests && Active(s, r, s.requests[r].gen) && s.requests[r].gen < |s.generations|
      && s.generations[s.requests[r].gen].tokens > 0
    case Replace(env, cfg, authorizer) => Compile(env, cfg, authorizer).Success?
  }

  function AddTokens(s: Gate, g: nat, n: int): seq<Generation>
    requires g < |s.generations|
  {
    s.generations[g := s.generations[g].(tokens := s.generations[g].tokens + n)]
  }

  ghost function Next(s: Gate, step: Step): Gate
    requires Enabled(s, step)
  {
    match step
    case Load(r) => s.(requests := s.requests[r := Loaded(|s.generations| - 1)])
    case Admit(r) =>
      var g := s.requests[r].gen;
      if s.generations[g].tokens < s.generations[g].runtime.maxInFlight then
        Gate(AddTokens(s, g, 1), s.requests[r := Holding(g)])
      else s.(requests := s.requests[r := Rejected(g)])
    case Route(r, q, found) =>
      var g := s.requests[r].gen;
      var runtime := s.generations[g].runtime;
      s.(requests := s.requests[r := Serving(g, q, Terms(found, runtime.maxBody, runtime.authorizer))])
    case Release(r) =>
      var g := s.requests[r].gen;
      Gate(AddTokens(s, g, -1), s.requests[r := Finished(g)])
    case Replace(env, cfg, authorizer) =>
      s.(generations := s.generations + [Generation(Compile(env, cfg, authorizer).value, 0)])
  }

  ghost predicate Run(s: Gate, steps: seq<Step>, t: Gate)
    decreases |steps|
  {
    if |steps| == 0 then s == t
    else Enabled(s, steps[0]) && Run(Next(s, steps[0]), steps[1..], t)
  }

  const START: Gate := Gate([], map[])

  /** The unfinished requests admitted under a generation. */
  function InFlight(s: Gate, g: nat): set<nat> {
    set r | r in s.requests && Active(s, r, g)
  }

  ghost predicate GenerationConserved(s: Gate, g: nat)
    requires g < |s.generations|
  {
    && s.generations[g].tokens == |InFlight(s, g)| <= s.generations[g].runtime.maxInFlight
    && s.generations[g].runtime.maxInFlight >= 1
  }

  /** A request in service is served by the routes, body limit and authorizer of its generation. */
  ghost predicate ServedByIts(s: Gate, r: nat)
    requires r in s.requests
  {
    match s.requests[r]
    case Serving(g, q, terms) =>
      && g < |s.generations|
      && Finds(s.generations[g].runtime.routes, q, terms.route)
      && terms.maxBody == s.generations[g].runtime.maxBody
      && terms.authorizer == s.generations[g].runtime.authorizer
    case _ => s.requests[r].gen < |s.generations|
  }

  ghost predicate Conserved(s: Gate) {
    && (forall g: nat :: g < |s.generations| ==> GenerationConserved(s, g))
    && (forall r :: r in s.requests ==> s.requests[r].gen < |s.generations| && ServedByIts(s, r))
  }

  /** A runtime that compiles admits at least one request. */
  lemma CompiledLimit(env: Env, cfg: Config, authorizer: Authorizer)
    requires Compile(env, cfg, authorizer).Success?
    ensures Compile(env, cfg, authorizer).value.maxInFlight == cfg.limits.maxInFlight >= 1
    ensures Compile(env, cfg, authorizer).value.maxBody == cfg.limits.maxBodyBytes >= 1
  {
    ValidationMeansAcceptable(cfg, env.parse);
  }

  /** A step puts at most its own request among the unfinished ones, or takes it away. */
  lemma InFlightAfter(s: Gate, step: Step, g: nat)
    requires Enabled(s, step)
    ensures InFlight(Next(s, step), g) ==
            if step.Admit? && Active(Next(s, step), step.r, g) then InFlight(s, g) + {step.r}
            else if step.Release? && Active(s, step.r, g) then InFlight(s, g) - {step.r}
            else InFlight(s, g)
  {
    hide Compile, Finds;
  }

  lemma NoneBeyond(s: Gate, g: nat)
    requires Conserved(s) && g >= |s.generations|
    ensures InFlight(s, g) == {}
  {
  }

  lemma ServiceStep(s: Gate, step: Step, r: nat)
    requires Conserved(s) && Enabled(s, step) && r in Next(s, step).requests
    ensures Next(s, step).requests[r].gen < |Next(s, step).generations| && ServedByIts(Next(s, step), r)
  {
    hide Finds, Compile, InFlight;
    if r in s.requests { assert ServedByIts(s, r); }
  }

  lemma NotYetHolding(s: Gate, r: nat, g: nat)
    requires r in s.requests && s.requests[r].Loaded?
    ensures r !in InFlight(s, g)
  {
  }

  lemma AlreadyHolding(s: Gate, r: nat, g: nat)
    requires Active(s, r, g)
    ensures r in InFlight(s, g)
  {
  }

  lemma GenerationStep(s: Gate, step: Step, g: nat)
    requires Conserved(s) && Enabled(s, step) && g < |Next(s, step).generations|
    ensures GenerationConserved(Next(s, step), g)
  {
    hide InFlight, Compile, Finds;
    var t := Next(s, step);
    InFlightAfter(s, step, g);
    if g >= |s.generations| {
      NoneBeyond(s, g);
      CompiledLimit(step.env, step.cfg, step.authorizer);
    } else {
      assert GenerationConserved(s, g);
      if step.Admit? && Active(t, step.r, g) { NotYetHolding(s, step.r, g); }
      if step.Release? && Active(s, step.r, g) { AlreadyHolding(s, step.r, g); }
    }
  }

  lemma StepConserves(s: Gate, step: Step)
    requires Conserved(s) && Enabled(s, step)
    ensures Conserved(Next(s, step))
  {
    forall g: nat | g < |Next(s, step).generations| ensures GenerationConserved(Next(s, step), g) {
      GenerationStep(s, step, g);
    }
    forall r | r in Next(s, step).requests
      ensures Next(s, step).requests[r].gen < |Next(s, step).generations| && ServedByIts(Next(s, step), r)
    {
      ServiceStep(s, step, r);
    }
  }

  /** In every interleaving, the tokens of each generation are its unfinished requests and never exceed
      its limit, every request in service is served by the generation it loaded, and the release
      of an admitted request never has to wait. */
  lemma {:induction false} TokensConserved(s: Gate, steps: seq<Step>, t: Gate)
    requires Conserved(s) && Run(s, steps, t)
    ensures Conserved(t)
    ensures forall r :: r in t.requests && Active(t, r, t.requests[r].gen) ==> Enabled(t, Release(r))
    decreases |steps|
  {
    if |steps| > 0 {
      StepConserves(s, steps[0]);
      TokensConserved(Next(s, steps[0]), steps[1..], t);
    } else {
      forall r | r in t.requests && Active(t, r, t.requests[r].gen) ensures Enabled(t, Release(r)) {
        assert r in InFlight(t, t.requests[r].gen) && GenerationConserved(t, t.requests[r].gen);
      }
    }
  }

  /** A request is admitted if and only if fewer requests than the limit are unfinished under its generation,
      and is rejected otherwise, at once. */
  lemma AdmitsExactly(s: Gate, r: nat)
    requires Conserved(s) && Enabled(s, Admit(r))
    ensures var g := s.requests[r].gen;
            Next(s, Admit(r)).requests[r] ==
            if |InFlight(s, g)| < s.generations[g].runtime.maxInFlight then Holding(g) else Rejected(g)
  {
    assert GenerationConserved(s, s.requests[r].gen);
  }

  /** A request loads the generation installed last. */
  lemma LoadsLatest(s: Gate, env: Env, cfg: Config, authorizer: Authorizer, r: nat)
    requires Compile(env, cfg, authorizer).Success? && r !in s.requests
    ensures var t := Next(s, Replace(env, cfg, authorizer));
            && Enabled(t, Load(r))
            && var u := Next(t, Load(r));
               u.requests[r] == Loaded(|s.generations|)
               && u.generations[u.requests[r].gen].runtime == Compile(env, cfg, authorizer).value
  {
    hide Compile;
  }

  lemma RunOfTwo(s: Gate, first: Step, second: Step)
    requires Enabled(s, first) && Enabled(Next(s, first), second)
    ensures Run(s, [first, second], Next(Next(s, first), second))
  {
    hide Enabled, Next;
    var steps := [first, second];
    assert Run(Next(s, first), steps[1..], Next(Next(s, first), second)) by {
      assert steps[1..][1..] == [];
    }
  }

  lemma LoadOne(s: Gate, r: nat) returns (t: Gate)
    requires Conserved(s) && |s.generations| > 0 && r !in s.requests
    ensures t == s.(requests := s.requests[r := Loaded(|s.generations| - 1)]) && Conserved(t)
    ensures Enabled(s, Load(r)) && t == Next(s, Load(r)) && Enabled(t, Admit(r))
    ensures InFlight(t, |s.generations| - 1) == InFlight(s, |s.generations| - 1)
  {
    t := Next(s, Load(r));
    StepConserves(s, Load(r));
    InFlightAfter(s, Load(r), |s.generations| - 1);
  }

  lemma AdmitLoaded(s: Gate, r: nat) returns (t: Gate)
    requires Conserved(s) && Enabled(s, Admit(r))
    requires |InFlight(s, s.requests[r].gen)| < s.generations[s.requests[r].gen].runtime.maxInFlight
    ensures t == Next(s, Admit(r)) && Conserved(t) && |t.generations| == |s.generations|
    ensures t.requests == s.requests[r := Holding(s.requests[r].gen)]
    ensures forall g :: 0 <= g < |s.generations| ==> t.generations[g].runtime == s.generations[g].runtime
    ensures |InFlight(t, s.requests[r].gen)| == |InFlight(s, s.requests[r].gen)| + 1
  {
    hide InFlight, Finds, Conserved, Compile;
    var g := s.requests[r].gen;
    AdmitsExactly(s, r);
    t := Next(s, Admit(r));
    StepConserves(s, Admit(r));
    InFlightAfter(s, Admit(r), g);
    NotYetHolding(s, r, g);
  }

  /** One more request under the last generation, which has room for it. */
  lemma AdmitOne(s: Gate, r: nat) returns (t: Gate)
    requires Conserved(s) && |s.generations| > 0 && r !in s.requests
    requires |InFlight(s, |s.generations| - 1)| < s.generations[|s.generations| - 1].runtime.maxInFlight
    ensures Run(s, [Load(r), Admit(r)], t) && Conserved(t) && |t.generations| == |s.generations|
    ensures forall q :: q in t.requests ==> q in s.requests || q == r
    ensures forall g :: 0 <= g < |s.generations| ==> t.generations[g].runtime == s.generations[g].runtime
    ensures |InFlight(t, |s.generations| - 1)| == |InFlight(s, |s.generations| - 1)| + 1
  {
    hide InFlight, Conserved, Next, Run, Enabled;
    var a := LoadOne(s, r);
    t := AdmitLoaded(a, r);
    RunOfTwo(s, Load(r), Admit(r));
  }

  /** Fills the last generation up with any number of requests within its limit. */
  lemma {:induction false} FillsUp(s: Gate, k: nat, next: nat) returns (steps: seq<Step>, t: Gate)
    requires Conserved(s) && |s.generations| > 0
    requires forall r :: r in s.requests ==> r < next
    requires |InFlight(s, |s.generations| - 1)| + k <= s.generations[|s.generations| - 1].runtime.maxInFlight
    ensures Run(s, steps, t) && Conserved(t) && |t.generations| == |s.generations|
    ensures forall r :: r in t.requests ==> r < next + k
    ensures forall g :: 0 <= g < |s.generations| ==> t.generations[g].runtime == s.generations[g].runtime
    ensures |InFlight(t, |s.generations| - 1)| == |InFlight(s, |s.generations| - 1)| + k
    decreases k
  {
    if k == 0 {
      return [], s;
    }
    hide InFlight, Conserved, Run;
    var m := AdmitOne(s, next);
    var rest;
    rest, t := FillsUp(m, k - 1, next + 1);
    steps := [Load(next), Admit(next)] + rest;
    RunAppends(s, [Load(next), Admit(next)], m, rest, t);
  }

  /** So every limit that can be configured can be reached, and the next request is then rejected. */
  lemma LimitReached(env: Env, cfg: Config, authorizer: Authorizer) returns (steps: seq<Step>, t: Gate, r: nat)
    requires Compile(env, cfg, authorizer).Success?
    ensures Run(START, steps, t) && |t.generations| == 1
    ensures |InFlight(t, 0)| == cfg.limits.maxInFlight == t.generations[0].runtime.maxInFlight
    ensures Enabled(t, Load(r)) && Enabled(Next(t, Load(r)), Admit(r))
    ensures Next(Next(t, Load(r)), Admit(r)).requests[r] == Rejected(0)
  {
    hide Compile, Finds;
    CompiledLimit(env, cfg, authorizer);
    var s := Next(START, Replace(env, cfg, authorizer));
    StepConserves(START, Replace(env, cfg, authorizer));
    assert InFlight(s, 0) == {};
    var rest;
    rest, t := FillsUp(s, cfg.limits.maxInFlight, 0);
    steps := [Replace(env, cfg, authorizer)] + rest;
    assert steps[1..] == rest;
    r := cfg.limits.maxInFlight;
    var u := Next(t, Load(r));
    StepConserves(t, Load(r));
    InFlightAfter(t, Load(r), 0);
    AdmitsExactly(u, r);
  }

  // ---------- One request ----------

  function Releases(steps: seq<Step>, r: nat): nat {
    if |steps| == 0 then 0
    else (if steps[0].Release? && steps[0].r == r then 1 else 0) + Releases(steps[1..], r)
  }

  predicate Settled(s: Gate, r: nat) {
    r in s.requests && (s.requests[r].Finished? || s.requests[r].Rejected?)
  }

  /** From loading on, a request stays with one generation, whose runtime stays as it is.  It releases
      at most once, and exactly once if it was admitted and is over. */
  lemma {:induction false} RequestKeepsGeneration(s: Gate, steps: seq<Step>, t: Gate, r: nat)
    requires Conserved(s) && Run(s, steps, t) && r in s.requests
    ensures r in t.requests && t.requests[r].gen == s.requests[r].gen
    ensures s.requests[r].gen < |s.generations| <= |t.generations|
    ensures t.generations[s.requests[r].gen].runtime == s.generations[s.requests[r].gen].runtime
    ensures ServedByIts(t, r)
    ensures Releases(steps, r) == if !Settled(s, r) && t.requests[r].Finished? then 1 else 0
    ensures Settled(s, r) ==> t.requests[r] == s.requests[r]
    decreases |steps|
  {
    if |steps| == 0 {
    } else {
      hide Compile, Finds, InFlight;
      StepConserves(s, steps[0]);
      RequestKeepsGeneration(Next(s, steps[0]), steps[1..], t, r);
    }
  }

  /** k generations of one runtime, each with one unfinished request. */
  ghost predicate Crowded(t: Gate, k: nat, runtime: Runtime) {
    && |t.generations| == k
    && (forall g :: 0 <= g < k ==> t.generations[g].runtime == runtime)
    && (forall r: nat :: r in t.requests <==> r < k)
    && (forall r: nat :: r < k ==> t.requests[r] == Holding(r))
  }

  /** t is s after another installation, with another request in flight under it. */
  ghost predicate Added(s: Gate, t: Gate, r: nat, runtime: Runtime) {
    && |t.generations| == |s.generations| + 1 && t.requests == s.requests[r := Holding(|s.generations|)]
    && (forall g :: 0 <= g < |s.generations| ==> t.generations[g].runtime == s.generations[g].runtime)
    && t.generations[|s.generations|].runtime == runtime
  }

  lemma MoreCrowded(s: Gate, t: Gate, k: nat, runtime: Runtime)
    requires Crowded(s, k, runtime) && Added(s, t, k, runtime)
    ensures Crowded(t, k + 1, runtime)
  {
  }

  lemma OneMoreInFlight(s: Gate, r: nat, env: Env, cfg: Config, authorizer: Authorizer)
    returns (steps: seq<Step>, t: Gate)
    requires Conserved(s) && r !in s.requests && Compile(env, cfg, authorizer).Success?
    ensures Run(s, steps, t) && Conserved(t) && Added(s, t, r, Compile(env, cfg, authorizer).value)
  {
    hide Compile, Finds, Conserved;
    var a := Next(s, Replace(env, cfg, authorizer));
    var b := Next(a, Load(r));
    CompiledLimit(env, cfg, authorizer);
    t := Next(b, Admit(r));
    StepConserves(s, Replace(env, cfg, authorizer));
    StepConserves(a, Load(r));
    StepConserves(b, Admit(r));
    steps := [Replace(env, cfg, authorizer), Load(r), Admit(r)];
    assert Run(b, steps[2..], t) by { assert steps[2..][1..] == []; }
    assert Run(a, steps[1..], t) by { assert steps[1..][1..] == steps[2..]; }
  }

  lemma {:induction false} RunAppends(s: Gate, first: seq<Step>, mid: Gate, second: seq<Step>, t: Gate)
    requires Run(s, first, mid) && Run(mid, second, t)
    ensures Run(s, first + second, t)
    decreases |first|
  {
    hide Compile, Next, Enabled, Finds;
    if |first| == 0 {
      assert first + second == second;
    } else {
      assert (first + second)[1..] == first[1..] + second;
      RunAppends(Next(s, first[0]), first[1..], mid, second, t);
    }
  }

  /** A limit bounds one generation only: any number of requests can be in flight together, one under
      each of as many installations of one and the same configuration. */
  lemma {:induction false} NoBoundAcrossGenerations(k: nat, env: Env, cfg: Config, authorizer: Authorizer)
    returns (steps: seq<Step>, t: Gate)
    requires Compile(env, cfg, authorizer).Success?
    ensures Run(START, steps, t) && Conserved(t) && Crowded(t, k, Compile(env, cfg, authorizer).value)
  {
    hide Compile;
    if k == 0 {
      return [], START;
    }
    hide Run, Conserved;
    var earlier, s := NoBoundAcrossGenerations(k - 1, env, cfg, authorizer);
    var more;
    more, t := OneMoreInFlight(s, k - 1, env, cfg, authorizer);
    MoreCrowded(s, t, k - 1, Compile(env, cfg, authorizer).value);
    steps := earlier + more;
    RunAppends(START, earlier, s, more, t);
  }

  // ---------- The connection limit of the listener ----------

  /** A listener that holds a slot for every connection it is waiting for and every connection
      it has handed out that is not closed. */
  class LimitedListener {
    const limit: int
    var slots: int
    ghost var waiting: nat
    ghost var open: set<LimitedConn>

    ghost predicate Valid()
      reads this, open
    {
      && slots == waiting + |open| <= limit
      && forall c :: c in open ==> c.listener == this && c.holdsSlot
    }

    constructor (limit: int)
      requires limit >= 1
      ensures Valid() && this.limit == limit && waiting == 0 && open == {}
    {
      this.limit, slots, waiting, open := limit, 0, 0, {};
    }

    /** The first half of Accept: the slot is taken before a connection is waited for.
        At the limit the call blocks. */
    method BeginAccept()
      requires Valid() && slots < limit
      modifies this
      ensures Valid() && waiting == old(waiting) + 1 && open == old(open)
    {
      slots := slots + 1;
      waiting := waiting + 1;
    }

    /** The second half: a connection keeps the slot, an error gives it back. */
    method EndAccept(ok: bool) returns (conn: LimitedConn?)
      requires Valid() && waiting > 0
      modifies this
      ensures Valid() && waiting == old(waiting) - 1
      ensures !ok ==> conn == null && open == old(open)
      ensures ok ==> conn != null && fresh(conn) && open == old(open) + {conn}
    {
      waiting := waiting - 1;
      if !ok {
        slots := slots - 1;
        return null;
      }
      conn := new LimitedConn(this);
      open := open + {conn};
    }

    /** Closing releases the slot of a connection once, however often it is called. */
    method Close(conn: LimitedConn)
      requires Valid() && conn.listener == this && (conn.holdsSlot <==> conn in open)
      modifies this, conn
      ensures Valid() && !conn.holdsSlot && conn !in open
      ensures waiting == old(waiting) && open == old(open) - {conn}
      ensures slots == old(slots) - if old(conn.holdsSlot) then 1 else 0
    {
      if conn.holdsSlot {
        slots := slots - 1;
        open := open - {conn};
        conn.holdsSlot := false;
      }
    }
  }

  class LimitedConn {
    const listener: LimitedListener
    var holdsSlot: bool

    constructor (listener: LimitedListener)
      ensures this.listener == listener && holdsSlot
    {
      this.listener, holdsSlot := listener, true;
    }
  }

  /** Once at the limit, no connection gets in before one is given up: closing one frees
      exactly one slot, and closing it again frees none. */
  method CloseTwice(listener: LimitedListener, conn: LimitedConn)
    requires listener.Valid() && conn in listener.open && listener.slots == listener.limit
    modifies listener, conn
    ensures listener.Valid() && listener.slots == listener.limit - 1
    ensures listener.open == old(listener.open) - {conn}
  {
    listener.Close(conn);
    listener.Close(conn);
  }
}
