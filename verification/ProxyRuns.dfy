/** Many requests sharing one pool, interleaved at every atomic operation: the counter increment,
    the health flag, each locked breaker call, and the return of each attempt.
    A request runs the Director (`pick`) and then the transport (`RoundTrip`), carrying the chosen
    endpoint and its permit from one to the other. */
module ProxyRuns {
  import opened Wrappers
  import opened Probes
  import Breaker

  /** Where a request is: about to make probe i; holding the candidate of probe i, before and after
      reading its health flag; sent on by the Director with or without a permit; inside attempt
      number `attempt` of the transport; or answered. */
  datatype Phase =
    | Probing(i: nat)
    | Checking(i: nat, e: nat)
    | Asking(i: nat, e: nat)
    | Directed(e: nat, permitted: bool)
    | Calling(e: nat, attempt: nat)
    | Answered(e: nat)

  /** `probers[e]` is the request that last moved breaker e to half-open (history, not program state). */
  datatype Traffic = Traffic(next: int, now: int, attempts: int, healthy: seq<bool>, breakers: seq<Breaker.State>,
                       requests: map<nat, Phase>, probers: seq<Option<nat>>)
  {
    predicate Shaped() {
      && 0 < |healthy| == |breakers| == |probers|
      && 2 * |healthy| <= TWO_TO_64 && 0 <= next < TWO_TO_64
    }

    function At(r: nat, p: Phase): Traffic {
      this.(requests := requests[r := p])
    }

    /** Request r is let through by breaker e. */
    function Admit(r: nat, e: nat): Traffic
      requires e < |breakers| == |probers|
    {
      this.(breakers := breakers[e := Breaker.AfterAsk(breakers[e], now)],
            probers := if breakers[e].openUntil.Some? then probers[e := Some(r)] else probers)
    }

    function Report(e: nat, ok: bool): Traffic
      requires e < |breakers|
    {
      this.(breakers := breakers[e := if ok then Breaker.AfterSuccess(breakers[e])
                                      else Breaker.AfterFailure(breakers[e], now)])
    }
  }

  datatype Step =
    | Tick(elapsed: nat)
    | Arrive(r: nat)
    | Draw(r: nat)
    | Check(r: nat)
    | Ask(r: nat)
    | Enter(r: nat)
    | Return(r: nat, ok: bool, again: bool)
    | SetHealth(e: nat, up: bool)
    | ResetBreaker(e: nat)

  predicate Enabled(s: Traffic, step: Step)
    requires s.Shaped()
  {
    match step
    case Tick(_) => true
    case Arrive(r) => r !in s.requests
    case Draw(r) => r in s.requests && s.requests[r].Probing?
    case Check(r) => r in s.requests && s.requests[r].Checking? && s.requests[r].e < |s.healthy|
    case Ask(r) => r in s.requests && s.requests[r].Asking? && s.requests[r].e < |s.healthy|
    case Enter(r) => r in s.requests && s.requests[r].Directed? && s.requests[r].e < |s.healthy|
    case Return(r, ok, again) =>
      && r in s.requests && s.requests[r].Calling? && s.requests[r].e < |s.healthy|
      && (again ==> !ok && s.requests[r].attempt < s.attempts)
    case SetHealth(e, _) => e < |s.healthy|
    case ResetBreaker(e) => e < |s.healthy|
  }

  function Next(s: Traffic, step: Step): (t: Traffic)
    requires s.Shaped() && Enabled(s, step)
    ensures t.Shaped() && |t.healthy| == |s.healthy|
  {
    match step
    case Tick(elapsed) => s.(now := s.now + elapsed)
    case Arrive(r) => s.At(r, Probing(0))
    case Draw(r) =>
      var i := s.requests[r].i;
      if i >= |s.healthy| then s.At(r, Directed(0, false))
      else
        var next := (s.next + 1) % TWO_TO_64;
        s.(next := next).At(r, Checking(i, (next + i) % TWO_TO_64 % |s.healthy|))
    case Check(r) =>
      var Checking(i, e) := s.requests[r];
      s.At(r, if s.healthy[e] then Asking(i, e) else Probing(i + 1))
    case Ask(r) =>
      var Asking(i, e) := s.requests[r];
      if Breaker.Admits(s.breakers[e], s.now) then s.Admit(r, e).At(r, Directed(e, true))
      else s.At(r, Probing(i + 1))
    case Enter(r) =>
      var Directed(e, permitted) := s.requests[r];
      if permitted then s.At(r, Calling(e, 0))
      else if Breaker.Admits(s.breakers[e], s.now) then s.Admit(r, e).At(r, Calling(e, 0))
      else s.At(r, Answered(e))
    case Return(r, ok, again) =>
      var Calling(e, attempt) := s.requests[r];
      s.Report(e, ok).At(r, if again then Calling(e, attempt + 1) else Answered(e))
    case SetHealth(e, up) => s.(healthy := s.healthy[e := up])
    case ResetBreaker(e) => s.Report(e, true)
  }

  /** s can become t by these steps, in this order. */
  ghost predicate Run(s: Traffic, steps: seq<Step>, t: Traffic)
    requires s.Shaped()
    decreases |steps|
  {
    if |steps| == 0 then s == t
    else Enabled(s, steps[0]) && Run(Next(s, steps[0]), steps[1..], t)
  }

  function Fresh(n: int, attempts: int, threshold: int, cooldown: int, next: int, now: int): Traffic
    requires n > 0
  {
    Traffic(next, now, attempts, seq(n, _ => true), seq(n, _ => Breaker.New(threshold, cooldown)), map[],
         seq(n, _ => None))
  }

  // ---------- A half-open breaker always has a request that will release it ----------

  /** Request r was let through by breaker e and has reported nothing since. */
  predicate Unreported(s: Traffic, r: nat, e: nat) {
    r in s.requests && (s.requests[r] == Directed(e, true) || s.requests[r] == Calling(e, 0))
  }

  ghost predicate BreakerSound(b: Breaker.State) {
    && b.threshold >= 1
    && (b.openUntil.Some? <==> b.failures >= b.threshold)
    && (b.halfOpen ==> b.openUntil.Some?)
  }

  ghost predicate Inv(s: Traffic) {
    && s.Shaped()
    && (forall e :: 0 <= e < |s.breakers| ==> BreakerSound(s.breakers[e]))
    && (forall r :: r in s.requests && !s.requests[r].Probing? ==> s.requests[r].e < |s.breakers|)
    && (forall e :: 0 <= e < |s.breakers| && s.breakers[e].halfOpen ==>
          s.probers[e].Some? && Unreported(s, s.probers[e].value, e))
  }

  lemma NextKeepsInv(s: Traffic, step: Step)
    requires Inv(s) && Enabled(s, step)
    ensures Inv(Next(s, step))
  {
    var t := Next(s, step);
    forall e | 0 <= e < |t.breakers| && t.breakers[e].halfOpen
      ensures t.probers[e].Some? && Unreported(t, t.probers[e].value, e)
    {
      if s.breakers[e].halfOpen && s.probers[e] == t.probers[e] {
        assert Unreported(s, s.probers[e].value, e);
      }
    }
  }

  /** In every interleaving, a breaker is half-open only while the request it last let through as a
      probe has yet to report. */
  lemma {:induction false} HalfOpenHasProber(s: Traffic, steps: seq<Step>, t: Traffic)
    requires Inv(s) && Run(s, steps, t)
    ensures Inv(t)
    decreases |steps|
  {
    if |steps| == 0 {
    } else {
      NextKeepsInv(s, steps[0]);
      HalfOpenHasProber(Next(s, steps[0]), steps[1..], t);
    }
  }

  lemma FreshPoolSound(n: int, attempts: int, threshold: int, cooldown: int, next: int, now: int)
    requires 0 < n && 2 * n <= TWO_TO_64 && threshold >= 1 && 0 <= next < TWO_TO_64
    ensures Inv(Fresh(n, attempts, threshold, cooldown, next, now))
  {
  }

  /** So it is never stuck: from every reachable state at most two steps, both of that one request
      and both enabled, end the half-open state, whatever the answer of the upstream.  In particular
      the prober is not refused on its way, though no other request would be let through. */
  lemma HalfOpenIsReleased(n: int, attempts: int, threshold: int, cooldown: int, next: int, now: int,
                           steps: seq<Step>, t: Traffic, e: nat, ok: bool)
    returns (r: nat, release: seq<Step>, u: Traffic)
    requires 0 < n && 2 * n <= TWO_TO_64 && threshold >= 1 && 0 <= next < TWO_TO_64
    requires Run(Fresh(n, attempts, threshold, cooldown, next, now), steps, t)
    requires t.Shaped() && e < |t.breakers| && t.breakers[e].halfOpen
    ensures release == [Return(r, ok, false)] || release == [Enter(r), Return(r, ok, false)]
    ensures Run(t, release, u) && e < |u.breakers| && !u.breakers[e].halfOpen
    ensures forall later :: !Breaker.Admits(t.breakers[e], later)
  {
    FreshPoolSound(n, attempts, threshold, cooldown, next, now);
    HalfOpenHasProber(Fresh(n, attempts, threshold, cooldown, next, now), steps, t);
    r := t.probers[e].value;
    assert Unreported(t, r, e);
    if t.requests[r].Calling? {
      u := Next(t, Return(r, ok, false));
      release := [Return(r, ok, false)];
    } else {
      var mid := Next(t, Enter(r));
      u := Next(mid, Return(r, ok, false));
      release := [Enter(r), Return(r, ok, false)];
      assert Run(mid, [Return(r, ok, false)], u);
      assert release[1..] == [Return(r, ok, false)];
    }
  }

  /** A request with a permit is never refused: whatever happens between the Director and the
      transport, entering the transport leads straight to its first attempt. */
  lemma {:induction false} PermitIsHonoured(s: Traffic, steps: seq<Step>, t: Traffic, r: nat, e: nat)
    requires Inv(s) && Run(s, steps, t)
    requires r in s.requests && s.requests[r] == Directed(e, true)
    requires Enter(r) !in steps
    ensures t.Shaped() && r in t.requests && t.requests[r] == Directed(e, true)
    ensures Enabled(t, Enter(r)) && Next(t, Enter(r)).requests[r] == Calling(e, 0)
    ensures Next(t, Enter(r)).breakers == t.breakers
    decreases |steps|
  {
    if |steps| == 0 {
    } else {
      NextKeepsInv(s, steps[0]);
      PermitIsHonoured(Next(s, steps[0]), steps[1..], t, r, e);
    }
  }

  // ---------- A late report ----------

  lemma {:induction false} RunAppends(s: Traffic, first: seq<Step>, mid: Traffic, second: seq<Step>, t: Traffic)
    requires s.Shaped() && mid.Shaped() && Run(s, first, mid) && Run(mid, second, t)
    ensures Run(s, first + second, t)
    decreases |first|
  {
    if |first| == 0 {
      assert first + second == second;
    } else {
      assert (first + second)[1..] == first[1..] + second;
      RunAppends(Next(s, first[0]), first[1..], mid, second, t);
    }
  }

  lemma RunsToItself(s: Traffic)
    requires s.Shaped()
    ensures Run(s, [], s)
  {
  }

  lemma OneMore(s: Traffic, steps: seq<Step>, t: Traffic, step: Step) returns (u: Traffic)
    requires s.Shaped() && t.Shaped() && Run(s, steps, t) && Enabled(t, step)
    ensures u == Next(t, step) && Run(s, steps + [step], u)
  {
    u := Next(t, step);
    assert Run(t, [step], u);
    RunAppends(s, steps, t, [step], u);
  }

  /** Request r on its way to the only endpoint, uninterrupted. */
  function Visit(r: nat): seq<Step> {
    [Arrive(r), Draw(r), Check(r), Ask(r), Enter(r)]
  }

  lemma Approach(s: Traffic, r: nat) returns (t: Traffic)
    requires s.Shaped() && |s.healthy| == 1 && s.healthy[0] && r !in s.requests
    ensures Run(s, [Arrive(r), Draw(r), Check(r)], t)
    ensures t == s.(next := (s.next + 1) % TWO_TO_64, requests := s.requests[r := Asking(0, 0)])
  {
    RunsToItself(s);
    hide Run;
    assert [] + [Arrive(r)] == [Arrive(r)];
    var a := OneMore(s, [], s, Arrive(r));
    var b := OneMore(s, [Arrive(r)], a, Draw(r));
    assert b.requests[r] == Checking(0, 0);
    t := OneMore(s, [Arrive(r), Draw(r)], b, Check(r));
    assert t.requests == s.requests[r := Asking(0, 0)];
  }

  lemma VisitRuns(s: Traffic, r: nat) returns (t: Traffic)
    requires s.Shaped() && |s.healthy| == 1 && s.healthy[0] && r !in s.requests && Breaker.Admits(s.breakers[0], s.now)
    ensures Run(s, Visit(r), t)
    ensures t == s.Admit(r, 0).(next := (s.next + 1) % TWO_TO_64, requests := s.requests[r := Calling(0, 0)])
  {
    hide Run;
    var c := Approach(s, r);
    var three := [Arrive(r), Draw(r), Check(r)];
    var d := OneMore(s, three, c, Ask(r));
    t := OneMore(s, three + [Ask(r)], d, Enter(r));
    assert three + [Ask(r)] + [Enter(r)] == Visit(r);
    assert t.requests == s.requests[r := Calling(0, 0)];
  }

  lemma VisitAfter(s: Traffic, steps: seq<Step>, t: Traffic, r: nat) returns (u: Traffic)
    requires s.Shaped() && t.Shaped() && Run(s, steps, t)
    requires |t.healthy| == 1 && t.healthy[0] && r !in t.requests && Breaker.Admits(t.breakers[0], t.now)
    ensures Run(s, steps + Visit(r), u)
    ensures u == t.Admit(r, 0).(next := (t.next + 1) % TWO_TO_64, requests := t.requests[r := Calling(0, 0)])
  {
    u := VisitRuns(t, r);
    RunAppends(s, steps, t, Visit(r), u);
  }

  /** An open breaker whose cooldown is over, while request 0 from before the opening is unanswered. */
  predicate Straggler(s: Traffic, cooldown: nat) {
    && s.Shaped() && s.healthy == [true]
    && s.breakers[0] == Breaker.State(1, cooldown, 1, Some(s.now), false)
    && 0 in s.requests && s.requests[0] == Calling(0, 0)
    && forall r :: r in s.requests ==> r < 2
  }

  lemma StragglerRuns(attempts: int, cooldown: nat, next: int, now: int) returns (steps: seq<Step>, s: Traffic)
    requires 0 <= next < TWO_TO_64
    ensures Straggler(s, cooldown) && Run(Fresh(1, attempts, 1, cooldown, next, now), steps, s)
  {
    hide Run;
    var start := Fresh(1, attempts, 1, cooldown, next, now);
    var a := VisitRuns(start, 0);
    steps := Visit(0);
    var b := VisitAfter(start, steps, a, 1);
    steps := steps + Visit(1);
    var c := OneMore(start, steps, b, Return(1, false, false));
    steps := steps + [Return(1, false, false)];
    s := OneMore(start, steps, c, Tick(cooldown));
    steps := steps + [Tick(cooldown)];
  }

  /** A probe is alone in its opening, not in flight: a failure reported late, by a request from before
      the opening, reopens the breaker, and after the cooldown a second probe joins the first. */
  lemma LateReportJoinsProbes(attempts: int, cooldown: nat, next: int, now: int)
    returns (first: seq<Step>, s: Traffic, second: seq<Step>, t: Traffic)
    requires 0 <= next < TWO_TO_64
    ensures Run(Fresh(1, attempts, 1, cooldown, next, now), first, s) && s.Shaped() && Run(s, second, t) && t.Shaped()
    ensures s.breakers[0].halfOpen && s.probers[0] == Some(2) && Unreported(s, 2, 0)
    ensures t.breakers[0].halfOpen && t.probers[0] == Some(3) && Unreported(t, 3, 0) && Unreported(t, 2, 0)
  {
    first, s := StragglerRuns(attempts, cooldown, next, now);
    s := VisitAfter(Fresh(1, attempts, 1, cooldown, next, now), first, s, 2);
    first := first + Visit(2);

    RunsToItself(s);
    hide Run;
    second := [];
    var e := OneMore(s, second, s, Return(0, false, false));
    second := second + [Return(0, false, false)];
    var f := OneMore(s, second, e, Tick(cooldown));
    second := second + [Tick(cooldown)];
    t := VisitAfter(s, second, f, 3);
    second := second + Visit(3);
  }

  // ---------- When a probe is alone ----------

  /** A step that tells breaker e an outcome. */
  predicate Tells(s: Traffic, step: Step, e: nat) {
    || step == ResetBreaker(e)
    || (step.Return? && step.r in s.requests && s.requests[step.r].Calling? && s.requests[step.r].e == e)
  }

  predicate Silent(s: Traffic, steps: seq<Step>, e: nat)
    requires s.Shaped()
    decreases |steps|
  {
    |steps| > 0 ==> Enabled(s, steps[0]) && !Tells(s, steps[0], e) && Silent(Next(s, steps[0]), steps[1..], e)
  }

  lemma SilentStep(s: Traffic, step: Step, e: nat)
    requires s.Shaped() && e < |s.breakers| && s.breakers[e].halfOpen && s.breakers[e].openUntil.Some?
    requires Enabled(s, step) && !Tells(s, step, e)
    ensures var t := Next(s, step);
            && t.breakers[e] == s.breakers[e] && t.probers[e] == s.probers[e]
            && forall r :: Unreported(t, r, e) ==> Unreported(s, r, e)
  {
  }

  /** As long as a half-open breaker is told no outcome, it stays as it is, its prober is the same
      request, and no further request gets through, however requests and checks interleave. */
  lemma {:induction false} ProbeStaysAlone(s: Traffic, steps: seq<Step>, t: Traffic, e: nat)
    requires Inv(s) && e < |s.breakers| && s.breakers[e].halfOpen
    requires Run(s, steps, t) && Silent(s, steps, e)
    ensures t.Shaped() && e < |t.breakers| && t.breakers[e] == s.breakers[e] && t.probers[e] == s.probers[e]
    ensures Unreported(t, t.probers[e].value, e)
    ensures forall r :: Unreported(t, r, e) ==> Unreported(s, r, e)
    decreases |steps|
  {
    if |steps| == 0 {
    } else {
      NextKeepsInv(s, steps[0]);
      SilentStep(s, steps[0], e);
      ProbeStaysAlone(Next(s, steps[0]), steps[1..], t, e);
    }
  }

  /** So whenever a second request becomes the prober, or gets through at all, the breaker was told
      an outcome before. */
  lemma SecondProbeNeedsReport(s: Traffic, steps: seq<Step>, t: Traffic, e: nat, r: nat)
    requires Inv(s) && e < |s.breakers| && s.breakers[e].halfOpen && Run(s, steps, t) && t.Shaped()
    requires e < |t.probers| && !Unreported(s, r, e) && (t.probers[e] == Some(r) || Unreported(t, r, e))
    ensures !Silent(s, steps, e)
  {
    if Silent(s, steps, e) {
      assert Unreported(s, s.probers[e].value, e);
      ProbeStaysAlone(s, steps, t, e);
      assert false;
    }
  }

  // ---------- Calls of one request ----------

  function CallsOf(steps: seq<Step>, r: nat): nat {
    if |steps| == 0 then 0
    else (if steps[0].Return? && steps[0].r == r then 1 else 0) + CallsOf(steps[1..], r)
  }

  /** The calls that request r can have had by now. */
  predicate Fits(s: Traffic, r: nat, calls: int) {
    var retries := if s.attempts > 0 then s.attempts else 0;
    if r !in s.requests then calls == 0
    else match s.requests[r]
      case Calling(_, attempt) => calls == attempt <= retries
      case Answered(_) => 0 <= calls <= retries + 1
      case _ => calls == 0
  }

  lemma StepFits(s: Traffic, step: Step, r: nat, calls: nat)
    requires s.Shaped() && Enabled(s, step) && Fits(s, r, calls)
    ensures Fits(Next(s, step), r, calls + if step.Return? && step.r == r then 1 else 0)
    ensures Next(s, step).attempts == s.attempts
  {
  }

  lemma {:induction false} CallsFit(s: Traffic, steps: seq<Step>, t: Traffic, r: nat, calls: nat)
    requires s.Shaped() && Run(s, steps, t) && Fits(s, r, calls)
    ensures t.Shaped() && t.attempts == s.attempts && Fits(t, r, calls + CallsOf(steps, r))
    decreases |steps|
  {
    if |steps| == 0 {
    } else {
      var more := if steps[0].Return? && steps[0].r == r then 1 else 0;
      StepFits(s, steps[0], r, calls);
      CallsFit(Next(s, steps[0]), steps[1..], t, r, calls + more);
    }
  }

  /** In every interleaving, from its arrival on, a request has at most attempts + 1 calls answered, and
      in the middle of attempt number k it has had exactly k. */
  lemma CallsStayBounded(s: Traffic, steps: seq<Step>, t: Traffic, r: nat)
    requires s.Shaped() && Run(s, steps, t) && r !in s.requests
    ensures CallsOf(steps, r) <= (if s.attempts > 0 then s.attempts else 0) + 1
    ensures r in t.requests && t.requests[r].Calling? ==> CallsOf(steps, r) == t.requests[r].attempt
    ensures r in t.requests && t.requests[r].Directed? ==> CallsOf(steps, r) == 0
  {
    CallsFit(s, steps, t, r, 0);
  }

  // ---------- Balance ----------

  /** All endpoints healthy, all breakers closed.  Failures may have been counted. */
  predicate Up(s: Traffic) {
    s.Shaped() && forall e :: 0 <= e < |s.healthy| ==> s.healthy[e] && s.breakers[e].openUntil.None?
  }

  /** Every state of the run is such. */
  predicate StaysUp(s: Traffic, steps: seq<Step>)
    decreases |steps|
  {
    Up(s) && (|steps| > 0 ==> Enabled(s, steps[0]) && StaysUp(Next(s, steps[0]), steps[1..]))
  }

  /** The endpoint a request is bound for, once it has drawn one. */
  function Target(p: Phase): Option<nat> {
    if p.Probing? then None else Some(p.e)
  }

  function BoundFor(s: Traffic, e: nat): set<nat> {
    set r | r in s.requests && Target(s.requests[r]) == Some(e)
  }

  /** Up, and every request that is under way has found its endpoint on the first probe. */
  ghost predicate AllUp(s: Traffic) {
    && Up(s)
    && (forall r :: r in s.requests ==>
          match s.requests[r]
          case Probing(i) => i == 0
          case Checking(i, e) => i == 0 && e < |s.healthy|
          case Asking(i, e) => i == 0 && e < |s.healthy|
          case Directed(e, permitted) => permitted && e < |s.healthy|
          case Calling(e, _) => e < |s.healthy|
          case Answered(e) => e < |s.healthy|)
  }

  lemma StepKeepsUp(s: Traffic, step: Step)
    requires AllUp(s) && Enabled(s, step) && Up(Next(s, step))
    ensures AllUp(Next(s, step))
  {
  }

  lemma DrawBinds(s: Traffic, r: nat, e: nat)
    requires AllUp(s) && Enabled(s, Draw(r)) && s.next + 1 < TWO_TO_64 && e < |s.healthy|
    ensures |BoundFor(Next(s, Draw(r)), e)| == |BoundFor(s, e)| + if (s.next + 1) % |s.healthy| == e then 1 else 0
  {
    var t := Next(s, Draw(r));
    assert t.requests[r] == Checking(0, (s.next + 1) % |s.healthy|);
    if (s.next + 1) % |s.healthy| == e {
      assert BoundFor(t, e) == BoundFor(s, e) + {r};
    } else {
      assert BoundFor(t, e) == BoundFor(s, e);
    }
  }

  lemma OtherStepsBindNothing(s: Traffic, step: Step, e: nat)
    requires AllUp(s) && Enabled(s, step) && !step.Draw? && e < |s.healthy|
    ensures BoundFor(Next(s, step), e) == BoundFor(s, e)
  {
  }

  function Draws(steps: seq<Step>): nat {
    if |steps| == 0 then 0 else (if steps[0].Draw? then 1 else 0) + Draws(steps[1..])
  }

  lemma DrawsCount(s: Traffic, step: Step)
    requires AllUp(s) && Enabled(s, step) && (step.Draw? ==> s.next + 1 < TWO_TO_64)
    ensures Next(s, step).next == s.next + if step.Draw? then 1 else 0
  {
  }

  /** One draw more in the tally, taken from the front. */
  lemma {:induction false} TallyFirst(c: int, k: nat, n: int, e: int)
    requires n > 0
    ensures Tally(c, k + 1, n, e) == Tally(c + 1, k, n, e) + if (c + 1) % n == e then 1 else 0
  {
    if k == 0 {
    } else {
      TallyFirst(c, k - 1, n, e);
    }
  }

  /** While everything stays up, the draws of a run are spread over the endpoints in turn. */
  lemma {:induction false} UpRun(s: Traffic, steps: seq<Step>, t: Traffic, e: nat)
    requires AllUp(s) && Run(s, steps, t) && StaysUp(s, steps)
    requires s.next + Draws(steps) < TWO_TO_64 && e < |s.healthy|
    ensures AllUp(t) && |t.healthy| == |s.healthy|
    ensures |BoundFor(t, e)| == |BoundFor(s, e)| + Tally(s.next, Draws(steps), |s.healthy|, e)
    decreases |steps|
  {
    if |steps| == 0 {
    } else {
      hide BoundFor;
      var m := Next(s, steps[0]);
      StepKeepsUp(s, steps[0]);
      DrawsCount(s, steps[0]);
      UpRun(m, steps[1..], t, e);
      if steps[0].Draw? {
        DrawBinds(s, steps[0].r, e);
        TallyFirst(s.next, Draws(steps[1..]), |s.healthy|, e);
      } else {
        OtherStepsBindNothing(s, steps[0], e);
      }
    }
  }

  /** Round robin: from any state and in every interleaving in which all endpoints stay healthy and all
      breakers closed, failed and retried calls included, k picks send to each of the n endpoints
      k / n requests, rounded down or up, each with a permit. */
  lemma RoundRobin(s: Traffic, steps: seq<Step>, t: Traffic, e: nat)
    requires AllUp(s) && Run(s, steps, t) && StaysUp(s, steps)
    requires s.next + Draws(steps) < TWO_TO_64 && e < |s.healthy|
    ensures var k, n := Draws(steps), |s.healthy|;
            k / n <= |BoundFor(t, e)| - |BoundFor(s, e)| <= k / n + if k % n == 0 then 0 else 1
    ensures forall r :: r in t.requests && t.requests[r].Directed? ==> t.requests[r].permitted
  {
    UpRun(s, steps, t, e);
    TallyBalanced(s.next, Draws(steps), |s.healthy|, e);
  }

  /** In particular from the start. */
  lemma FreshPoolUp(n: int, attempts: int, threshold: int, cooldown: int, next: int, now: int)
    requires 0 < n && 2 * n <= TWO_TO_64 && 0 <= next < TWO_TO_64
    ensures AllUp(Fresh(n, attempts, threshold, cooldown, next, now))
    ensures forall e: nat :: BoundFor(Fresh(n, attempts, threshold, cooldown, next, now), e) == {}
  {
  }
}
