/** The per-endpoint circuit breaker of the data plane.
    `State` is the value of a breaker between two locked calls; the class below keeps that
    value in mutable fields, one method per locked method of the program.  A zero `openUntil`
    is `None`.  Everything a breaker does is then read off its history of events. */
module Breaker {
  import opened Wrappers

  datatype State = State(threshold: int, cooldown: int, failures: int, openUntil: Option<int>, halfOpen: bool)

  function New(threshold: int, cooldown: int): State {
    State(threshold, cooldown, 0, None, false)
  }

  predicate Admits(b: State, now: int) {
    b.openUntil.None? || (b.openUntil.value <= now && !b.halfOpen)
  }

  function AfterAsk(b: State, now: int): State {
    if b.openUntil.Some? && Admits(b, now) then b.(halfOpen := true) else b
  }

  function AfterSuccess(b: State): State {
    b.(failures := 0, openUntil := None, halfOpen := false)
  }

  function AfterFailure(b: State, now: int): State {
    if b.threshold <= b.failures + 1 then
      b.(failures := b.failures + 1, openUntil := Some(now + b.cooldown), halfOpen := false)
    else
      b.(failures := b.failures + 1)
  }

  class CircuitBreaker {
    const threshold: int
    const cooldown: int
    var failures: int
    var openUntil: Option<int>
    var halfOpen: bool

    ghost function Value(): State
      reads this
    {
      State(threshold, cooldown, failures, openUntil, halfOpen)
    }

    constructor (threshold: int, cooldown: int)
      ensures Value() == New(threshold, cooldown)
    {
      this.threshold, this.cooldown := threshold, cooldown;
      failures, openUntil, halfOpen := 0, None, false;
    }

    method Allow(now: int) returns (ok: bool)
      modifies this
      ensures ok == Admits(old(Value()), now)
      ensures Value() == AfterAsk(old(Value()), now)
    {
      if openUntil.None? {
        return true;
      }
      if now < openUntil.value || halfOpen {
        return false;
      }
      halfOpen := true;
      return true;
    }

    method Success()
      modifies this
      ensures Value() == AfterSuccess(old(Value()))
    {
      failures := 0;
      openUntil := None;
      halfOpen := false;
    }

    method Failure(now: int)
      modifies this
      ensures Value() == AfterFailure(old(Value()), now)
    {
      failures := failures + 1;
      if failures >= threshold {
        openUntil := Some(now + cooldown);
        halfOpen := false;
      }
    }

    method IsOpen() returns (open: bool)
      ensures open == Value().openUntil.Some?
    {
      return openUntil.Some?;
    }
  }

  // ---------- What a history says ----------

  datatype Event = Ask(now: int) | Succeeded | Failed(now: int)

  function Step(b: State, e: Event): State {
    match e
    case Ask(now) => AfterAsk(b, now)
    case Succeeded => AfterSuccess(b)
    case Failed(now) => AfterFailure(b, now)
  }

  function Replay(b: State, h: seq<Event>): State {
    if |h| == 0 then b else Step(Replay(b, h[..|h| - 1]), h[|h| - 1])
  }

  /** Failure reports since the last success. */
  function FailureRun(h: seq<Event>): nat {
    if |h| == 0 then 0
    else match h[|h| - 1]
      case Ask(_) => FailureRun(h[..|h| - 1])
      case Succeeded => 0
      case Failed(_) => FailureRun(h[..|h| - 1]) + 1
  }

  /** When the last of those failures was reported. */
  function LastFailure(h: seq<Event>): (t: int)
    requires FailureRun(h) > 0
  {
    match h[|h| - 1]
    case Ask(_) => LastFailure(h[..|h| - 1])
    case Failed(now) => now
  }

  /** At position i a request asked after the cooldown, and no outcome has been reported since. */
  ghost predicate ProbeAt(h: seq<Event>, threshold: int, cooldown: int, i: int) {
    && 0 <= i < |h|
    && h[i].Ask?
    && (forall j :: i < j < |h| ==> h[j].Ask?)
    && FailureRun(h[..i]) >= threshold >= 1
    && LastFailure(h[..i]) + cooldown <= h[i].now
  }

  ghost predicate ProbeOut(h: seq<Event>, threshold: int, cooldown: int) {
    exists i :: ProbeAt(h, threshold, cooldown, i)
  }

  /** One more question puts a probe out exactly when one is out already or this one is due. */
  lemma ProbeExtends(g: seq<Event>, last: Event, threshold: int, cooldown: int)
    requires threshold >= 1 && last.Ask?
    ensures ProbeOut(g + [last], threshold, cooldown) <==>
            ProbeOut(g, threshold, cooldown)
            || (FailureRun(g) >= threshold && LastFailure(g) + cooldown <= last.now)
  {
    var h := g + [last];
    assert h[..|g|] == g;
    forall i | 0 <= i < |g|
      ensures ProbeAt(h, threshold, cooldown, i) <==> ProbeAt(g, threshold, cooldown, i)
    {
      assert h[..i] == g[..i];
      assert h[|g|] == last;
      if ProbeAt(h, threshold, cooldown, i) {
        forall j | i < j < |g| ensures g[j].Ask? { assert h[j].Ask?; }
      }
    }
    if FailureRun(g) >= threshold && LastFailure(g) + cooldown <= last.now {
      assert ProbeAt(h, threshold, cooldown, |g|);
    }
    if ProbeOut(h, threshold, cooldown) {
      var i :| ProbeAt(h, threshold, cooldown, i);
      if i < |g| { assert ProbeAt(g, threshold, cooldown, i); }
    }
    if ProbeOut(g, threshold, cooldown) {
      var i :| ProbeAt(g, threshold, cooldown, i);
      assert ProbeAt(h, threshold, cooldown, i);
    }
  }

  /** The fields of a breaker are a function of its history: the failure count is the current run,
      it is open exactly when that run has reached the threshold, until one cooldown after the
      latest failure, and half-open exactly when a probe is out. */
  lemma {:induction false} HistoryDetermines(threshold: int, cooldown: int, h: seq<Event>)
    requires threshold >= 1
    ensures var b := Replay(New(threshold, cooldown), h);
            && b.threshold == threshold && b.cooldown == cooldown
            && b.failures == FailureRun(h)
            && (b.openUntil.Some? <==> FailureRun(h) >= threshold)
            && (b.openUntil.Some? ==> b.openUntil.value == LastFailure(h) + cooldown)
            && (b.halfOpen ==> b.openUntil.Some?)
            && (b.halfOpen <==> ProbeOut(h, threshold, cooldown))
  {
    if |h| == 0 {
    } else {
      var g, last := h[..|h| - 1], h[|h| - 1];
      HistoryDetermines(threshold, cooldown, g);
      if last.Ask? {
        ProbeExtends(g, last, threshold, cooldown);
        assert g + [last] == h;
      } else {
        assert forall i :: !ProbeAt(h, threshold, cooldown, i) by {
          assert h[|h| - 1] == last;
        }
      }
    }
  }

  /** The answer to the next request, told from the history alone. */
  lemma AdmissionFromHistory(threshold: int, cooldown: int, h: seq<Event>, now: int)
    requires threshold >= 1
    ensures Admits(Replay(New(threshold, cooldown), h), now) <==>
            || FailureRun(h) < threshold
            || (LastFailure(h) + cooldown <= now && !ProbeOut(h, threshold, cooldown))
  {
    HistoryDetermines(threshold, cooldown, h);
  }

  /** A failure reported while a probe is out closes the door again for a full cooldown. */
  lemma FailedProbeReopens(threshold: int, cooldown: int, h: seq<Event>, now: int, later: int)
    requires threshold >= 1 && cooldown > 0
    requires ProbeOut(h, threshold, cooldown)
    ensures var b := Replay(New(threshold, cooldown), h + [Failed(now)]);
            && !b.halfOpen
            && (Admits(b, later) <==> now + cooldown <= later)
  {
    var g := h + [Failed(now)];
    assert g[..|g| - 1] == h;
    var i :| ProbeAt(h, threshold, cooldown, i);
    HistoryDetermines(threshold, cooldown, h);
    HistoryDetermines(threshold, cooldown, g);
  }

  // ---------- How often an open breaker admits ----------

  /** The times at which requests were admitted, in order. */
  function Admissions(b: State, h: seq<Event>): seq<int> {
    if |h| == 0 then []
    else
      var g, last := h[..|h| - 1], h[|h| - 1];
      Admissions(b, g) + if last.Ask? && Admits(Replay(b, g), last.now) then [last.now] else []
  }

  predicate Open(b: State) {
    b.openUntil.Some? && 1 <= b.threshold <= b.failures
  }

  predicate MonotoneFailing(h: seq<Event>) {
    && (forall i :: 0 <= i < |h| ==> !h[i].Succeeded?)
    && (forall i, j :: 0 <= i < j < |h| ==> h[i].now <= h[j].now)
  }

  predicate Spaced(times: seq<int>, gap: int) {
    forall i :: 0 < i < |times| ==> times[i - 1] + gap <= times[i]
  }

  /** The last admission is in the past, and the next is not due within a cooldown of it. */
  predicate Resting(times: seq<int>, s: State, now: int)
    requires |times| > 0 && s.openUntil.Some?
  {
    var last := times[|times| - 1];
    last <= now && (s.halfOpen || last + s.cooldown <= s.openUntil.value)
  }

  lemma NextAdmission(times: seq<int>, s: State, e: Event, now: int)
    requires Open(s) && !e.Succeeded? && now <= e.now
    requires Spaced(times, s.cooldown) && (|times| > 0 ==> Resting(times, s, now))
    ensures var t := Step(s, e);
            var times' := times + if e.Ask? && Admits(s, e.now) then [e.now] else [];
            && Open(t) && t.cooldown == s.cooldown && Spaced(times', s.cooldown)
            && (|times'| > 0 ==> Resting(times', t, e.now))
  {
  }

  /** Without a success, and on a monotone clock, admissions are at least one cooldown apart. */
  lemma {:induction false} AdmissionsSpaced(b: State, h: seq<Event>)
    requires Open(b) && MonotoneFailing(h)
    ensures Open(Replay(b, h)) && Replay(b, h).cooldown == b.cooldown
    ensures Spaced(Admissions(b, h), b.cooldown)
    ensures |Admissions(b, h)| > 0 ==> Resting(Admissions(b, h), Replay(b, h), h[|h| - 1].now)
  {
    if |h| == 0 {
    } else {
      var g, last := h[..|h| - 1], h[|h| - 1];
      AdmissionsSpaced(b, g);
      assert |g| > 0 ==> g[|g| - 1].now <= last.now;
      NextAdmission(Admissions(b, g), Replay(b, g), last, if |g| > 0 then g[|g| - 1].now else last.now);
    }
  }

  lemma {:induction false} SpacedGap(times: seq<int>, gap: int, i: int, j: int)
    requires Spaced(times, gap) && 0 <= i <= j < |times|
    ensures (j - i) * gap <= times[j] - times[i]
    decreases j
  {
    if i == j {
    } else {
      SpacedGap(times, gap, i, j - 1);
      assert (j - i) * gap == (j - 1 - i) * gap + gap;
    }
  }

  lemma Multiple(k: int, q: int, gap: int)
    requires k > q && gap > 0
    ensures k * gap >= q * gap + gap
  {
    assert k * gap == (k - q - 1) * gap + q * gap + gap;
  }

  lemma QuotientBound(k: nat, gap: int, width: nat)
    requires gap > 0 && k * gap <= width
    ensures k <= width / gap
  {
    var q := width / gap;
    assert width < q * gap + gap;
    if k > q {
      Multiple(k, q, gap);
      assert false;
    }
  }

  /** So the admissions numbered i to j can only lie in a window of the given width
      if there are at most width / cooldown + 1 of them. */
  lemma AdmissionRate(b: State, h: seq<Event>, i: int, j: int, width: nat)
    requires Open(b) && MonotoneFailing(h) && b.cooldown > 0
    requires 0 <= i <= j < |Admissions(b, h)|
    requires Admissions(b, h)[j] - Admissions(b, h)[i] <= width
    ensures j - i + 1 <= width / b.cooldown + 1
  {
    AdmissionsSpaced(b, h);
    SpacedGap(Admissions(b, h), b.cooldown, i, j);
    QuotientBound(j - i, b.cooldown, width);
  }

  /** Each deadline lets at most one request through before the next reported outcome. */
  lemma {:induction false} OneProbePerOpening(b: State, h: seq<Event>)
    requires b.openUntil.Some?
    requires forall i :: 0 <= i < |h| ==> h[i].Ask?
    ensures Replay(b, h).openUntil == b.openUntil
    ensures |Admissions(b, h)| == if Replay(b, h).halfOpen && !b.halfOpen then 1 else 0
    ensures b.halfOpen ==> Replay(b, h).halfOpen
  {
    if |h| == 0 {
    } else {
      OneProbePerOpening(b, h[..|h| - 1]);
    }
  }
}
