/** The history of one breaker in a run of many requests: which questions and reports it saw, and when.
    Everything proved about histories thereby holds in every interleaving. */
module Histories {
  import opened ProxyRuns
  import Breaker

  // ---------- Histories end to end ----------

  lemma {:induction false} ReplayAppends(b: Breaker.State, g: seq<Breaker.Event>, h: seq<Breaker.Event>)
    ensures Breaker.Replay(b, g + h) == Breaker.Replay(Breaker.Replay(b, g), h)
    ensures Breaker.Admissions(b, g + h) == Breaker.Admissions(b, g) + Breaker.Admissions(Breaker.Replay(b, g), h)
  {
    if |h| == 0 {
      assert g + h == g;
    } else {
      hide Breaker.Step, Breaker.Admits;
      assert (g + h)[..|g + h| - 1] == g + h[..|h| - 1];
      ReplayAppends(b, g, h[..|h| - 1]);
    }
  }

  /** The times of questions and failures never go back, and start at a given time. */
  predicate TimedFrom(h: seq<Breaker.Event>, from: int) {
    && (forall i :: 0 <= i < |h| && !h[i].Succeeded? ==> from <= h[i].now)
    && (forall i, j :: 0 <= i < j < |h| && !h[i].Succeeded? && !h[j].Succeeded? ==> h[i].now <= h[j].now)
  }

  // ---------- The history of breaker e in a run ----------

  /** What a step asks or tells breaker e: a request is a question unless it has a permit. */
  function EventOf(s: Traffic, step: Step, e: nat): (h: seq<Breaker.Event>)
    requires s.Shaped() && Enabled(s, step)
    ensures |h| <= 1
  {
    match step
    case Ask(r) => if s.requests[r].e == e then [Breaker.Ask(s.now)] else []
    case Enter(r) => if s.requests[r] == Directed(e, false) then [Breaker.Ask(s.now)] else []
    case Return(r, ok, _) =>
      if s.requests[r].e != e then [] else if ok then [Breaker.Succeeded] else [Breaker.Failed(s.now)]
    case ResetBreaker(f) => if f == e then [Breaker.Succeeded] else []
    case _ => []
  }

  function History(s: Traffic, steps: seq<Step>, e: nat): seq<Breaker.Event>
    requires s.Shaped()
    decreases |steps|
  {
    if |steps| == 0 || !Enabled(s, steps[0]) then []
    else EventOf(s, steps[0], e) + History(Next(s, steps[0]), steps[1..], e)
  }

  /** The time of a step by which a request gets through to endpoint e: with a permit, or without
      one straight into its first call. */
  function Entry(s: Traffic, step: Step, e: nat): seq<int>
    requires s.Shaped() && Enabled(s, step)
  {
    var t := Next(s, step);
    match step
    case Ask(r) => if t.requests[r] == Directed(e, true) then [s.now] else []
    case Enter(r) => if s.requests[r] == Directed(e, false) && t.requests[r] == Calling(e, 0) then [s.now] else []
    case _ => []
  }

  function Entries(s: Traffic, steps: seq<Step>, e: nat): seq<int>
    requires s.Shaped()
    decreases |steps|
  {
    if |steps| == 0 || !Enabled(s, steps[0]) then []
    else Entry(s, steps[0], e) + Entries(Next(s, steps[0]), steps[1..], e)
  }

  lemma StepReplays(s: Traffic, step: Step, e: nat)
    requires s.Shaped() && Enabled(s, step) && e < |s.breakers|
    ensures Next(s, step).breakers[e] == Breaker.Replay(s.breakers[e], EventOf(s, step, e))
    ensures Breaker.Admissions(s.breakers[e], EventOf(s, step, e)) == Entry(s, step, e)
    ensures TimedFrom(EventOf(s, step, e), s.now) && s.now <= Next(s, step).now
  {
    var h := EventOf(s, step, e);
    assert |h| == 1 ==> h[..0] == [];
  }

  lemma TimedOn(g: seq<Breaker.Event>, h: seq<Breaker.Event>, now: int, later: int)
    requires |g| <= 1 && now <= later && TimedFrom(g, now) && TimedFrom(h, later)
    requires |g| == 1 && !g[0].Succeeded? ==> g[0].now <= later
    ensures TimedFrom(g + h, now)
  {
  }

  /** In every interleaving a breaker is what its history makes of it, its admissions are the requests that
      get through, and its clock never goes back. */
  lemma {:induction false} HistoryIsReplayed(s: Traffic, steps: seq<Step>, t: Traffic, e: nat)
    requires s.Shaped() && Run(s, steps, t) && e < |s.breakers|
    ensures |t.breakers| == |s.breakers|
    ensures t.breakers[e] == Breaker.Replay(s.breakers[e], History(s, steps, e))
    ensures Breaker.Admissions(s.breakers[e], History(s, steps, e)) == Entries(s, steps, e)
    ensures TimedFrom(History(s, steps, e), s.now)
    decreases |steps|
  {
    if |steps| == 0 {
      assert History(s, steps, e) == [];
    } else {
      var m := Next(s, steps[0]);
      StepReplays(s, steps[0], e);
      HistoryIsReplayed(m, steps[1..], t, e);
      ReplayAppends(s.breakers[e], EventOf(s, steps[0], e), History(m, steps[1..], e));
      assert |EventOf(s, steps[0], e)| == 1 && !EventOf(s, steps[0], e)[0].Succeeded? ==>
          EventOf(s, steps[0], e)[0].now == s.now;
      hide Breaker.Replay, Breaker.Admissions, Next;
      TimedOn(EventOf(s, steps[0], e), History(m, steps[1..], e), s.now, m.now);
    }
  }

  // ---------- What histories say of runs ----------

  /** In every run from the start, all fields of a breaker and its next answer can be told from what
      it was asked and told. */
  lemma RunDetermines(n: int, attempts: int, threshold: int, cooldown: int, next: int, now: int,
                      steps: seq<Step>, t: Traffic, e: nat, later: int)
    requires e < n && Fresh(n, attempts, threshold, cooldown, next, now).Shaped() && threshold >= 1
    requires Run(Fresh(n, attempts, threshold, cooldown, next, now), steps, t)
    ensures |t.breakers| == n
    ensures var h, b := History(Fresh(n, attempts, threshold, cooldown, next, now), steps, e), t.breakers[e];
            && b.threshold == threshold && b.cooldown == cooldown
            && b.failures == Breaker.FailureRun(h)
            && (b.openUntil.Some? <==> Breaker.FailureRun(h) >= threshold)
            && (b.openUntil.Some? ==> b.openUntil.value == Breaker.LastFailure(h) + cooldown)
            && (b.halfOpen <==> Breaker.ProbeOut(h, threshold, cooldown))
            && (Breaker.Admits(b, later) <==>
                  || Breaker.FailureRun(h) < threshold
                  || (Breaker.LastFailure(h) + cooldown <= later && !Breaker.ProbeOut(h, threshold, cooldown)))
  {
    var s := Fresh(n, attempts, threshold, cooldown, next, now);
    HistoryIsReplayed(s, steps, t, e);
    Breaker.HistoryDetermines(threshold, cooldown, History(s, steps, e));
    Breaker.AdmissionFromHistory(threshold, cooldown, History(s, steps, e), later);
  }

  predicate NoSuccess(h: seq<Breaker.Event>) {
    forall i :: 0 <= i < |h| ==> !h[i].Succeeded?
  }

  /** In every interleaving, while an open breaker is told no success, at most width / cooldown + 1
      requests get through to its endpoint in a window of that width. */
  lemma EntriesAreSlow(s: Traffic, steps: seq<Step>, t: Traffic, e: nat, i: int, j: int, width: nat)
    requires Inv(s) && Run(s, steps, t) && e < |s.breakers|
    requires s.breakers[e].openUntil.Some? && s.breakers[e].cooldown > 0
    requires NoSuccess(History(s, steps, e))
    requires 0 <= i <= j < |Entries(s, steps, e)| && Entries(s, steps, e)[j] - Entries(s, steps, e)[i] <= width
    ensures j - i + 1 <= width / s.breakers[e].cooldown + 1
  {
    HistoryIsReplayed(s, steps, t, e);
    assert BreakerSound(s.breakers[e]);
    Breaker.AdmissionRate(s.breakers[e], History(s, steps, e), i, j, width);
  }
}
