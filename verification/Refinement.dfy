/** A request that nothing interrupts: the atomic steps of the state machine, run one after the other,
    do what the loops of `pick` and of the transport compute. */
module Refinement {
  import opened Wrappers
  import opened Probes
  import opened ProxyRuns
  import Breaker
  import P = Pool
  import Proxy

  function ViewOf(s: Traffic): P.View {
    P.View(s.next, s.healthy, s.breakers)
  }

  predicate OwnStep(step: Step, r: nat) {
    match step
    case Tick(_) => true
    case SetHealth(_, _) => false
    case ResetBreaker(_) => false
    case _ => step.r == r
  }

  /** Nothing happens but steps of request r, and time passes. */
  predicate Alone(steps: seq<Step>, r: nat) {
    forall k :: 0 <= k < |steps| ==> OwnStep(steps[k], r)
  }

  lemma {:induction false} CallsAppend(first: seq<Step>, second: seq<Step>, r: nat)
    ensures CallsOf(first + second, r) == CallsOf(first, r) + CallsOf(second, r)
  {
    if |first| == 0 {
      assert first + second == second;
    } else {
      assert (first + second)[1..] == first[1..] + second;
      CallsAppend(first[1..], second, r);
    }
  }

  /** A run without calls of request r, of which the last step is given. */
  lemma Extend(s: Traffic, steps: seq<Step>, t: Traffic, step: Step, r: nat) returns (more: seq<Step>, u: Traffic)
    requires s.Shaped() && t.Shaped() && Run(s, steps, t) && Enabled(t, step)
    requires Alone(steps, r) && OwnStep(step, r)
    ensures u == Next(t, step) && Run(s, more, u) && Alone(more, r)
    ensures CallsOf(more, r) == CallsOf(steps, r) + if step.Return? && step.r == r then 1 else 0
  {
    more := steps + [step];
    u := OneMore(s, steps, t, step);
    CallsAppend(steps, [step], r);
    assert CallsOf([step], r) == (if step.Return? && step.r == r then 1 else 0) + CallsOf([], r);
  }

  lemma Join(s: Traffic, first: seq<Step>, m: Traffic, second: seq<Step>, t: Traffic, r: nat) returns (steps: seq<Step>)
    requires s.Shaped() && m.Shaped() && Run(s, first, m) && Run(m, second, t)
    requires Alone(first, r) && Alone(second, r)
    ensures Run(s, steps, t) && Alone(steps, r) && CallsOf(steps, r) == CallsOf(first, r) + CallsOf(second, r)
  {
    steps := first + second;
    RunAppends(s, first, m, second, t);
    CallsAppend(first, second, r);
  }

  // ---------- The Director ----------

  lemma NoCalls(r: nat)
    ensures CallsOf([], r) == 0
  {
  }

  /** One probe: drawn, checked, asked if healthy, and then time passes up to the next one. */
  lemma ProbeRuns(s: Traffic, r: nat, clock: nat -> int, i: nat) returns (steps: seq<Step>, t: Traffic)
    requires s.Shaped() && i < |s.healthy| && r in s.requests && s.requests[r] == Probing(i)
    requires P.Monotone(clock) && s.now == clock(i)
    ensures Run(s, steps, t) && Alone(steps, r) && CallsOf(steps, r) == 0 && t.Shaped() && t.attempts == s.attempts
    ensures var v := ViewOf(s);
            var e := P.NextCandidate(v, i);
            if v.CanServe(e, clock(i)) then
              t.requests == s.requests[r := Directed(e, true)] && ViewOf(t) == P.Permitted(v, e, clock(i))
              && t.now == clock(i)
            else
              t.requests == s.requests[r := Probing(i + 1)] && ViewOf(t) == P.Advanced(v) && t.now == clock(i + 1)
  {
    hide Run, CallsOf;
    RunsToItself(s);
    NoCalls(r);
    var v := ViewOf(s);
    var e := P.NextCandidate(v, i);
    steps, t := Extend(s, [], s, Draw(r), r);
    assert t.requests[r] == Checking(i, e);
    steps, t := Extend(s, steps, t, Check(r), r);
    if s.healthy[e] {
      assert t.requests[r] == Asking(i, e);
      steps, t := Extend(s, steps, t, Ask(r), r);
    }
    if !v.CanServe(e, clock(i)) {
      assert clock(i) <= clock(i + 1);
      steps, t := Extend(s, steps, t, Tick(clock(i + 1) - clock(i)), r);
    }
  }

  lemma {:induction false} WalkRuns(s: Traffic, r: nat, clock: nat -> int, i: nat)
    returns (steps: seq<Step>, t: Traffic)
    requires s.Shaped() && i <= |s.healthy| && r in s.requests && s.requests[r] == Probing(i)
    requires P.Monotone(clock) && s.now == clock(i)
    ensures Run(s, steps, t) && Alone(steps, r) && CallsOf(steps, r) == 0 && t.Shaped() && t.attempts == s.attempts
    ensures t.now <= clock(|s.healthy|)
    ensures var (w, e, permitted) := P.PickFrom(ViewOf(s), clock, i);
            ViewOf(t) == w && t.requests == s.requests[r := Directed(e, permitted)]
    decreases |s.healthy| - i
  {
    hide Run, CallsOf, P.NextCandidate;
    assert clock(i) <= clock(|s.healthy|);
    if i == |s.healthy| {
      RunsToItself(s);
      NoCalls(r);
      steps, t := Extend(s, [], s, Draw(r), r);
    } else {
      steps, t := ProbeRuns(s, r, clock, i);
      if t.requests[r].Probing? {
        var second, u := WalkRuns(t, r, clock, i + 1);
        steps := Join(s, steps, t, second, u, r);
        t := u;
      }
    }
  }

  // ---------- The transport ----------

  /** From attempt number i on: each call is answered, reported, and repeated as long as the loop does. */
  lemma {:induction false} SendRuns(s: Traffic, r: nat, e: nat, b: Breaker.State, x: P.Exchange, clock: nat -> int,
                                    i: nat)
    returns (steps: seq<Step>, t: Traffic)
    requires s.Shaped() && e < |s.healthy| && r in s.requests && s.requests[r] == Calling(e, i)
    requires P.Monotone(clock) && s.now <= clock(i) && x.attempts == s.attempts
    requires s.breakers[e] == Breaker.Replay(b, x.Reports(clock, i))
    ensures Run(s, steps, t) && Alone(steps, r) && t.Shaped() && t.attempts == s.attempts
    ensures i + CallsOf(steps, r) == x.CallsFrom(i)
    ensures ViewOf(t) == ViewOf(s).(breakers := s.breakers[e := Breaker.Replay(b, x.Reports(clock, x.CallsFrom(i)))])
    ensures t.requests == s.requests[r := Answered(e)]
    decreases s.attempts - i
  {
    hide Run, CallsOf, Breaker.Replay, P.Exchange.Reports;
    RunsToItself(s);
    NoCalls(r);
    P.ReportOne(b, x, clock, i);
    var again := !x.Returns(i);
    steps, t := Extend(s, [], s, Tick(clock(i) - s.now), r);
    steps, t := Extend(s, steps, t, Return(r, P.Good(x.base(i)), again), r);
    if again {
      assert clock(i) <= clock(i + 1);
      var second, u := SendRuns(t, r, e, b, x, clock, i + 1);
      steps := Join(s, steps, t, second, u, r);
      t := u;
    }
  }

  lemma ReplayNothing(b: Breaker.State, x: P.Exchange, clock: nat -> int)
    ensures Breaker.Replay(b, x.Reports(clock, 0)) == b
  {
  }

  lemma EnterRuns(s: Traffic, r: nat, e: nat, permitted: bool, a: Proxy.Arrival) returns (steps: seq<Step>, t: Traffic)
    requires s.Shaped() && e < |s.healthy| && r in s.requests && s.requests[r] == Directed(e, permitted)
    requires P.Monotone(a.reported) && s.now <= a.asked <= a.reported(0)
    ensures Run(s, steps, t) && Alone(steps, r) && t.Shaped() && t.attempts == s.attempts
    ensures var (b, reply, calls) :=
              Proxy.Transported(s.breakers[e], permitted, a.To(e, s.attempts), a.asked, a.reported);
            && ViewOf(t) == ViewOf(s).(breakers := s.breakers[e := b])
            && t.requests == s.requests[r := Answered(e)]
            && CallsOf(steps, r) == calls
  {
    hide Run, CallsOf, Breaker.Replay, P.Exchange.CallsFrom;
    RunsToItself(s);
    NoCalls(r);
    steps, t := Extend(s, [], s, Tick(a.asked - s.now), r);
    steps, t := Extend(s, steps, t, Enter(r), r);
    if t.requests[r].Calling? {
      var x := a.To(e, s.attempts);
      ReplayNothing(t.breakers[e], x, a.reported);
      var second, u := SendRuns(t, r, e, t.breakers[e], x, a.reported, 0);
      steps := Join(s, steps, t, second, u, r);
      t := u;
    }
  }

  // ---------- The whole request ----------

  /** An uninterrupted request leaves the pool, and has made the calls, that the loops of the Director and
      the transport compute. */
  lemma RequestRuns(s: Traffic, r: nat, a: Proxy.Arrival) returns (steps: seq<Step>, t: Traffic)
    requires s.Shaped() && r !in s.requests
    requires P.Monotone(a.picked) && s.now == a.picked(0) && P.Monotone(a.reported)
    requires a.picked(|s.healthy|) <= a.asked <= a.reported(0)
    ensures Run(s, steps, t) && Alone(steps, r) && t.Shaped() && t.attempts == s.attempts
    ensures var f := Proxy.Forwarded(ViewOf(s), a, s.attempts);
            ViewOf(t) == f.view && t.requests == s.requests[r := Answered(f.index)] && CallsOf(steps, r) == f.calls
  {
    hide Run, CallsOf, P.PickFrom, Proxy.Transported;
    RunsToItself(s);
    NoCalls(r);
    var arrived, m := Extend(s, [], s, Arrive(r), r);
    var walk, d := WalkRuns(m, r, a.picked, 0);
    var Directed(e, permitted) := d.requests[r];
    var rest, u := EnterRuns(d, r, e, permitted, a);
    steps := Join(m, walk, d, rest, u, r);
    steps := Join(s, arrived, m, steps, u, r);
    t := u;
  }

  // ---------- A round of health checks ----------

  function Prefix(checks: seq<P.Check>, v: P.View, k: nat): P.View
    requires v.Valid() && |checks| == |v.healthy| && k <= |checks|
  {
    var w := P.Checked(v, checks);
    v.(healthy := w.healthy[..k] + v.healthy[k..], breakers := w.breakers[..k] + v.breakers[k..])
  }

  lemma CheckOne(s: Traffic, v: P.View, checks: seq<P.Check>, k: nat, steps: seq<Step>, t: Traffic)
    returns (more: seq<Step>, u: Traffic)
    requires s.Shaped() && t.Shaped() && v == ViewOf(s) && |checks| == |v.healthy| && k < |checks|
    requires Run(s, steps, t) && ViewOf(t) == Prefix(checks, v, k) && t.requests == s.requests
    ensures u.Shaped() && Run(s, more, u) && ViewOf(u) == Prefix(checks, v, k + 1) && u.requests == s.requests
  {
    hide Run;
    P.CheckedEndpoint(v, checks, k);
    var w := P.Checked(v, checks);
    u := OneMore(s, steps, t, SetHealth(k, w.healthy[k]));
    more := steps + [SetHealth(k, w.healthy[k])];
    if w.healthy[k] {
      u := OneMore(s, more, u, ResetBreaker(k));
      more := more + [ResetBreaker(k)];
    }
    assert u.healthy == w.healthy[..k + 1] + v.healthy[k + 1..];
    assert u.breakers == w.breakers[..k + 1] + v.breakers[k + 1..];
  }

  /** The steps of a round of health checks that nothing interrupts leave the pool that `CheckHealth` computes. */
  lemma ChecksRun(s: Traffic, checks: seq<P.Check>) returns (steps: seq<Step>, t: Traffic)
    requires s.Shaped() && |checks| == |s.healthy|
    ensures Run(s, steps, t) && t.Shaped() && ViewOf(t) == P.Checked(ViewOf(s), checks) && t.requests == s.requests
  {
    var v := ViewOf(s);
    steps, t := [], s;
    RunsToItself(s);
    for k := 0 to |checks|
      invariant t.Shaped() && Run(s, steps, t) && ViewOf(t) == Prefix(checks, v, k) && t.requests == s.requests
    {
      steps, t := CheckOne(s, v, checks, k, steps, t);
    }
    var w := P.Checked(v, checks);
    assert w.healthy[..|checks|] + v.healthy[|checks|..] == w.healthy;
    assert w.breakers[..|checks|] + v.breakers[|checks|..] == w.breakers;
  }
}
