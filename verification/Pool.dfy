/** An upstream pool: choosing an endpoint, sending a request with retries, and health checks.
    `View` is the value of a pool at one moment; the classes keep it in mutable state. */
module Pool {
  import opened Wrappers
  import opened Probes
  import Breaker

  datatype View = View(next: int, healthy: seq<bool>, breakers: seq<Breaker.State>) {
    predicate Valid() {
      && |healthy| == |breakers| > 0
      && 0 <= next < TWO_TO_64
      && 2 * |healthy| <= TWO_TO_64
    }

    predicate CanServe(e: int, now: int)
      requires Valid() && 0 <= e < |healthy|
    {
      healthy[e] && Breaker.Admits(breakers[e], now)
    }
  }

  function Advanced(v: View): (w: View)
    requires v.Valid()
    ensures w.Valid() && |w.healthy| == |v.healthy|
  {
    v.(next := (v.next + 1) % TWO_TO_64)
  }

  function NextCandidate(v: View, i: nat): (e: int)
    requires v.Valid()
    ensures 0 <= e < |v.healthy|
  {
    (Advanced(v).next + i) % TWO_TO_64 % |v.healthy|
  }

  function Permitted(v: View, e: int, now: int): (w: View)
    requires v.Valid() && 0 <= e < |v.healthy|
    ensures w.Valid() && |w.healthy| == |v.healthy|
  {
    Advanced(v).(breakers := v.breakers[e := Breaker.AfterAsk(v.breakers[e], now)])
  }

  /** What `pick` does from probe i on, reading the clock as it goes. */
  function PickFrom(v: View, clock: nat -> int, i: nat): (r: (View, int, bool))
    requires v.Valid() && i <= |v.healthy|
    ensures r.0.Valid() && |r.0.healthy| == |v.healthy| && 0 <= r.1 < |v.healthy|
    decreases |v.healthy| - i
  {
    if i == |v.healthy| then (v, 0, false)
    else
      var e := NextCandidate(v, i);
      if v.CanServe(e, clock(i)) then (Permitted(v, e, clock(i)), e, true)
      else PickFrom(Advanced(v), clock, i + 1)
  }

  function PickView(v: View, clock: nat -> int): (r: (View, int, bool))
    requires v.Valid()
    ensures r.0.Valid() && |r.0.healthy| == |v.healthy| && 0 <= r.1 < |v.healthy|
  {
    PickFrom(v, clock, 0)
  }

  /** Probe i of an undisturbed pick finds an endpoint that may serve. */
  predicate Ready(v: View, clock: nat -> int, i: nat)
    requires v.Valid()
  {
    v.CanServe(Probe(v.next, i, |v.healthy|), clock(i))
  }

  ghost predicate FirstReady(v: View, clock: nat -> int, i: int)
    requires v.Valid()
  {
    0 <= i < |v.healthy| && Ready(v, clock, i) && forall j :: 0 <= j < i ==> !Ready(v, clock, j)
  }

  // What it means to stop at probe i: one question asked of one breaker, nothing else touched.
  ghost predicate StopsAt(v: View, clock: nat -> int, i: int, r: (View, int, bool))
    requires v.Valid()
  {
    && FirstReady(v, clock, i)
    && var e := Probe(v.next, i, |v.healthy|);
      && r.1 == e
      && r.0 == v.(next := (v.next + i + 1) % TWO_TO_64,
                   breakers := v.breakers[e := Breaker.AfterAsk(v.breakers[e], clock(i))])
  }

  /** The answer of a pick that stops at probe i. */
  function Stopped(v: View, clock: nat -> int, i: nat): (View, int, bool)
    requires v.Valid()
  {
    var e := Probe(v.next, i, |v.healthy|);
    (v.(next := (v.next + i + 1) % TWO_TO_64,
        breakers := v.breakers[e := Breaker.AfterAsk(v.breakers[e], clock(i))]), e, true)
  }

  lemma Turn(v: View, clock: nat -> int, i: nat)
    requires v.Valid() && i < |v.healthy|
    ensures PickFrom(v.(next := (v.next + i) % TWO_TO_64), clock, i) ==
            if Ready(v, clock, i) then Stopped(v, clock, i)
            else PickFrom(v.(next := (v.next + (i + 1)) % TWO_TO_64), clock, i + 1)
  {
    var w := v.(next := (v.next + i) % TWO_TO_64);
    assert (w.next + 1) % TWO_TO_64 == (v.next + i + 1) % TWO_TO_64;
    assert NextCandidate(w, i) == Probe(v.next, i, |v.healthy|);
  }

  lemma {:induction false} WalkFrom(v: View, clock: nat -> int, i: nat)
    requires v.Valid() && i <= |v.healthy|
    requires forall j :: 0 <= j < i ==> !Ready(v, clock, j)
    ensures var r := PickFrom(v.(next := (v.next + i) % TWO_TO_64), clock, i);
            if r.2 then exists k :: StopsAt(v, clock, k, r)
            else (forall j :: 0 <= j < |v.healthy| ==> !Ready(v, clock, j))
                 && r.1 == 0 && r.0 == v.(next := (v.next + |v.healthy|) % TWO_TO_64)
    decreases |v.healthy| - i
  {
    if i == |v.healthy| {
    } else {
      Turn(v, clock, i);
      hide PickFrom, Ready, Probe;
      if Ready(v, clock, i) {
        assert StopsAt(v, clock, i, Stopped(v, clock, i));
      } else {
        WalkFrom(v, clock, i + 1);
      }
    }
  }

  /** `pick` stops at the first ready probe and asks that breaker alone; without a ready probe it
      falls back to endpoint 0, unpermitted, having only advanced the counter. */
  lemma PickMeaning(v: View, clock: nat -> int)
    requires v.Valid()
    ensures var r := PickView(v, clock);
            && (r.2 <==> exists i :: FirstReady(v, clock, i))
            && (r.2 <==> exists i :: 0 <= i < |v.healthy| && Ready(v, clock, i))
            && (r.2 ==> exists i :: StopsAt(v, clock, i, r))
            && (!r.2 ==> r.1 == 0 && r.0 == v.(next := (v.next + |v.healthy|) % TWO_TO_64))
  {
    assert v.(next := (v.next + 0) % TWO_TO_64) == v;
    WalkFrom(v, clock, 0);
    if exists i :: 0 <= i < |v.healthy| && Ready(v, clock, i) {
      assert PickView(v, clock).2;
    }
  }

  ghost predicate Monotone(clock: nat -> int) {
    forall i, j :: 0 <= i <= j ==> clock(i) <= clock(j)
  }

  /** A permitted pick names an endpoint on its walk that can serve by the time the walk ends. */
  lemma PickedCanServe(v: View, clock: nat -> int)
    requires v.Valid() && Monotone(clock)
    requires PickView(v, clock).2
    ensures Visits(v.next, |v.healthy|, PickView(v, clock).1)
    ensures v.CanServe(PickView(v, clock).1, clock(|v.healthy| - 1))
  {
    PickMeaning(v, clock);
    var i :| StopsAt(v, clock, i, PickView(v, clock));
    assert clock(i) <= clock(|v.healthy| - 1);
  }

  /** An endpoint on the walk that can serve when the pick starts makes the pick succeed. */
  lemma VisitedServerFound(v: View, clock: nat -> int, e: int)
    requires v.Valid() && Monotone(clock)
    requires 0 <= e < |v.healthy| && Visits(v.next, |v.healthy|, e) && v.CanServe(e, clock(0))
    ensures PickView(v, clock).2
  {
    var i: nat :| i < |v.healthy| && Probe(v.next, i, |v.healthy|) == e;
    assert clock(0) <= clock(i);
    assert Ready(v, clock, i);
    PickMeaning(v, clock);
  }

  /** With an odd number of endpoints, and away from a counter overflow, a pick succeeds whenever
      some endpoint can serve when it starts, and only if one can by the time it ends. */
  lemma OddPickFindsServer(v: View, clock: nat -> int)
    requires v.Valid() && Monotone(clock)
    requires |v.healthy| % 2 == 1 && !WrapsInside(v.next, |v.healthy|)
    ensures (exists e :: 0 <= e < |v.healthy| && v.CanServe(e, clock(0))) ==> PickView(v, clock).2
    ensures PickView(v, clock).2 ==> v.CanServe(PickView(v, clock).1, clock(|v.healthy| - 1))
  {
    OddWalkVisitsAll(v.next, |v.healthy|);
    if e :| 0 <= e < |v.healthy| && v.CanServe(e, clock(0)) {
      VisitedServerFound(v, clock, e);
    }
    if PickView(v, clock).2 {
      PickedCanServe(v, clock);
    }
  }

  /** With an even number of endpoints a pick only ever considers one parity class: it succeeds,
      with an endpoint of that class, only if that class has a server, and surely if it has one. */
  lemma EvenPickSeesHalf(v: View, clock: nat -> int)
    requires v.Valid() && Monotone(clock)
    requires |v.healthy| % 2 == 0
    ensures PickView(v, clock).2 ==>
              && PickView(v, clock).1 % 2 == (v.next + 1) % 2
              && v.CanServe(PickView(v, clock).1, clock(|v.healthy| - 1))
    ensures !WrapsInside(v.next, |v.healthy|)
            && (exists e :: 0 <= e < |v.healthy| && e % 2 == (v.next + 1) % 2 && v.CanServe(e, clock(0)))
            ==> PickView(v, clock).2
  {
    var n := |v.healthy|;
    if PickView(v, clock).2 {
      PickedCanServe(v, clock);
      var i: nat :| i < n && Probe(v.next, i, n) == PickView(v, clock).1;
      EvenWalkKeepsParity(v.next, n, i);
    }
    if !WrapsInside(v.next, n) {
      if e :| 0 <= e < n && e % 2 == (v.next + 1) % 2 && v.CanServe(e, clock(0)) {
        EvenWalkVisits(v.next, n, e);
        VisitedServerFound(v, clock, e);
      }
    }
  }

  /** The pool after a sequence of picks, and the answers they gave. */
  function Picks(v: View, clocks: seq<nat -> int>): (r: (View, seq<(int, bool)>))
    requires v.Valid()
    ensures r.0.Valid() && |r.0.healthy| == |v.healthy|
  {
    if |clocks| == 0 then (v, [])
    else
      var before := Picks(v, clocks[..|clocks| - 1]);
      var last := PickView(before.0, clocks[|clocks| - 1]);
      (last.0, before.1 + [(last.1, last.2)])
  }

  /** No endpoint of the parity class that the next pick considers can serve. */
  ghost predicate NoServer(v: View, now: int)
    requires v.Valid()
  {
    forall e :: 0 <= e < |v.healthy| && e % 2 == (v.next + 1) % 2 ==> !v.CanServe(e, now)
  }

  lemma SameParity(x: int, y: int)
    requires (x - 1) % 2 == (y - 1) % 2
    ensures x % 2 == y % 2
  {
  }

  lemma CounterKeepsParity(c: int, n: int)
    requires n % 2 == 0
    ensures (c + n) % TWO_TO_64 % 2 == c % 2
  {
  }

  lemma ReadyServes(v: View, clock: nat -> int, i: nat)
    requires v.Valid() && i < |v.healthy| && Ready(v, clock, i)
    requires Probe(v.next, i, |v.healthy|) % 2 == (v.next + 1) % 2
    ensures !NoServer(v, clock(i))
  {
  }

  lemma NoServerPick(v: View, clock: nat -> int)
    requires v.Valid() && |v.healthy| % 2 == 0 && forall i: nat :: NoServer(v, clock(i))
    ensures PickView(v, clock) == (v.(next := (v.next + |v.healthy|) % TWO_TO_64), 0, false)
    ensures PickView(v, clock).0.next % 2 == v.next % 2
  {
    CounterKeepsParity(v.next, |v.healthy|);
    PickMeaning(v, clock);
    if PickView(v, clock).2 {
      var i :| StopsAt(v, clock, i, PickView(v, clock));
      EvenWalkKeepsParity(v.next, |v.healthy|, i);
      ReadyServes(v, clock, i);
      assert false;
    }
  }

  lemma SameClass(v: View, w: View, now: int)
    requires v.Valid() && w == v.(next := w.next) && w.Valid() && w.next % 2 == v.next % 2
    ensures NoServer(w, now) <==> NoServer(v, now)
  {
    SameParity(w.next + 1, v.next + 1);
    forall e | 0 <= e < |v.healthy| ensures w.CanServe(e, now) <==> v.CanServe(e, now) {
    }
  }

  /** A failed pick leaves the parity of the counter as it was, so with an even number of endpoints
      a parity class without a server is met again by every later pick, which falls back to endpoint 0
      without a permit, however many servers the other class has, even across a counter overflow. */
  lemma {:induction false} EvenPoolStarves(v: View, clocks: seq<nat -> int>)
    requires v.Valid() && |v.healthy| % 2 == 0
    requires forall k, i: nat :: 0 <= k < |clocks| ==> NoServer(v, clocks[k](i))
    ensures var r := Picks(v, clocks);
            && r.0 == v.(next := r.0.next) && r.0.next % 2 == v.next % 2
            && r.1 == seq(|clocks|, _ => (0, false))
  {
    if |clocks| == 0 {
    } else {
      var earlier, clock := clocks[..|clocks| - 1], clocks[|clocks| - 1];
      EvenPoolStarves(v, earlier);
      var w := Picks(v, earlier).0;
      forall i: nat ensures NoServer(w, clock(i)) {
        SameClass(v, w, clock(i));
      }
      NoServerPick(w, clock);
    }
  }

  function Always(now: int): nat -> int {
    _ => now
  }

  function PicksAt(v: View, now: int, k: nat): (r: (View, seq<(int, bool)>))
    requires v.Valid()
    ensures r.0.Valid() && |r.0.healthy| == |v.healthy|
  {
    Picks(v, seq(k, _ => Always(now)))
  }

  function After(c: int, n: int): int {
    (c + n) % TWO_TO_64
  }

  lemma FailedPick(v: View, now: int)
    requires v.Valid() && |v.healthy| % 2 == 0 && !NoServer(v, now)
    ensures var r := PickView(v, Always(now));
            r.2 || (&& WrapsInside(v.next, |v.healthy|)
                    && r.0.Valid() && r.0 == v.(next := After(v.next, |v.healthy|)) && !NoServer(r.0, now))
  {
    hide PickView;
    var r := PickView(v, Always(now));
    PickMeaning(v, Always(now));
    if !r.2 {
      CounterKeepsParity(v.next, |v.healthy|);
      SameClass(v, r.0, now);
      var e :| 0 <= e < |v.healthy| && e % 2 == (v.next + 1) % 2 && v.CanServe(e, now);
      EvenPickSeesHalf(v, Always(now));
      assert v.CanServe(e, Always(now)(0));
    }
  }

  lemma NeverThreeWraps(c: int, n: int)
    requires 0 <= c < TWO_TO_64 && 0 < 4 * n <= TWO_TO_64
    requires WrapsInside(c, n) && WrapsInside(After(c, n), n)
    ensures !WrapsInside(After(After(c, n), n), n)
  {
  }

  lemma PicksOneMore(v: View, now: int, k: nat)
    requires v.Valid()
    ensures PicksAt(v, now, 0) == (v, [])
    ensures var before := PicksAt(v, now, k);
            var last := PickView(before.0, Always(now));
            PicksAt(v, now, k + 1) == (last.0, before.1 + [(last.1, last.2)])
  {
    var clocks := seq(k + 1, _ => Always(now));
    assert clocks[..k] == seq(k, _ => Always(now));
  }

  /** Otherwise one of three picks is served, and the first if the counter does not overflow in it. */
  lemma ServedSoon(v: View, now: int) returns (k: nat)
    requires v.Valid() && 4 * |v.healthy| <= TWO_TO_64
    requires |v.healthy| % 2 == 0 && !NoServer(v, now)
    ensures 1 <= k <= 3 && |PicksAt(v, now, k).1| == k && PicksAt(v, now, k).1[k - 1].1
    ensures k > 1 ==> WrapsInside(v.next, |v.healthy|)
  {
    hide PickView, Picks, PicksAt, NoServer, After, WrapsInside;
    PicksOneMore(v, now, 0);
    var a := PickView(v, Always(now));
    if a.2 {
      return 1;
    }
    FailedPick(v, now);
    PicksOneMore(v, now, 1);
    var b := PickView(a.0, Always(now));
    if b.2 {
      return 2;
    }
    FailedPick(a.0, now);
    PicksOneMore(v, now, 2);
    if !PickView(b.0, Always(now)).2 {
      FailedPick(b.0, now);
      NeverThreeWraps(v.next, |v.healthy|);
      assert false;
    }
    k := 3;
  }

  /** Exactly when picks fail forever, at constant health and time: when the class of the next one
      has no server. */
  lemma StarvesIff(v: View, now: int)
    requires v.Valid() && |v.healthy| % 2 == 0 && 4 * |v.healthy| <= TWO_TO_64
    ensures (forall k: nat :: PicksAt(v, now, k).1 == seq(k, _ => (0, false))) <==> NoServer(v, now)
  {
    if NoServer(v, now) {
      forall k: nat ensures PicksAt(v, now, k).1 == seq(k, _ => (0, false)) {
        EvenPoolStarves(v, seq(k, _ => Always(now)));
      }
    } else {
      var k := ServedSoon(v, now);
      assert PicksAt(v, now, k).1[k - 1].1;
    }
  }

  /** A pool of two, both breakers closed, in which a pick fails although endpoint 0 can serve. */
  lemma EvenPickMissesServer(now: int)
    ensures var v := View(0, [true, false], [Breaker.New(5, 10), Breaker.New(5, 10)]);
            v.Valid() && v.CanServe(0, now) && !PickView(v, Always(now)).2
  {
    NoServerPick(View(0, [true, false], [Breaker.New(5, 10), Breaker.New(5, 10)]), Always(now));
  }

  // ---------- Sending one request ----------

  datatype Error = CircuitOpen | Transport(code: nat) | BodyFailed(code: nat)

  datatype Reply = Reply(response: Option<int>, error: Option<Error>)

  /** A request body: none, one that cannot be produced again, or one that can, unless
      producing it for a given retry fails. */
  datatype Body = Empty | OneShot | Rewindable(rewind: nat -> Option<nat>)

  datatype Request = Request(verb: string, body: Body)

  predicate Idempotent(verb: string) {
    verb == "GET" || verb == "HEAD" || verb == "OPTIONS" || verb == "PUT" || verb == "DELETE"
  }

  predicate Good(r: Reply) {
    r.error.None? && r.response.Some? && r.response.value < 500
  }

  predicate ExactlyOne(r: Reply) {
    r.response.Some? <==> r.error.None?
  }

  /** A request, the retry budget, and what the underlying transport would answer to each attempt. */
  datatype Exchange = Exchange(request: Request, attempts: int, base: nat -> Reply) {
    predicate Retryable(i: nat) {
      !Good(base(i)) && i < attempts && Idempotent(request.verb)
    }

    predicate CanResend(i: nat) {
      match request.body
      case Empty => true
      case OneShot => false
      case Rewindable(rewind) => rewind(i).None?
    }

    predicate Returns(i: nat) {
      !Retryable(i) || !CanResend(i)
    }

    function Answer(i: nat): Reply {
      if !Retryable(i) then base(i)
      else match request.body
        case OneShot => Reply(None, base(i).error)
        case Rewindable(rewind) =>
          if rewind(i).Some? then Reply(None, Some(BodyFailed(rewind(i).value))) else base(i)
        case Empty => base(i)
    }

    /** The number of calls made when attempt i is the next. */
    function CallsFrom(i: nat): (k: nat)
      ensures k > i && Returns(k - 1) && forall j: nat :: i <= j < k - 1 ==> !Returns(j)
      decreases attempts - i
    {
      if Returns(i) then i + 1 else CallsFrom(i + 1)
    }

    /** What the first k attempts report to the breaker. */
    function Reports(clock: nat -> int, k: nat): seq<Breaker.Event> {
      seq(k, i requires 0 <= i => if Good(base(i)) then Breaker.Succeeded else Breaker.Failed(clock(i)))
    }
  }

  /** The number of calls is bounded by the retry budget, and is one for other methods. */
  lemma CallsBounded(x: Exchange)
    ensures 1 <= x.CallsFrom(0) <= (if x.attempts > 0 then x.attempts else 0) + 1
    ensures !Idempotent(x.request.verb) ==> x.CallsFrom(0) == 1
    ensures forall j: nat :: j < x.CallsFrom(0) - 1 ==> !Good(x.base(j))
  {
    var k := x.CallsFrom(0);
    forall j: nat | j < k - 1 ensures !Good(x.base(j)) && j < x.attempts && Idempotent(x.request.verb) {
      assert !x.Returns(j);
    }
    if k > 1 {
      assert !x.Returns(k - 2);
    }
  }

  /** A breaker after k failures in a row, failure number i at clock(i). */
  function AfterFailures(b: Breaker.State, clock: nat -> int, k: nat): Breaker.State {
    if k == 0 then b
    else if b.failures + k < b.threshold then b.(failures := b.failures + k)
    else b.(failures := b.failures + k, openUntil := Some(clock(k - 1) + b.cooldown), halfOpen := false)
  }

  lemma OneMoreReport(b: Breaker.State, clock: nat -> int, k: nat)
    ensures Breaker.AfterFailure(AfterFailures(b, clock, k), clock(k)) == AfterFailures(b, clock, k + 1)
    ensures Breaker.AfterSuccess(AfterFailures(b, clock, k)) == Breaker.New(b.threshold, b.cooldown)
  {
  }

  lemma ReplayOne(b: Breaker.State, h: seq<Breaker.Event>, e: Breaker.Event)
    ensures Breaker.Replay(b, h + [e]) == Breaker.Step(Breaker.Replay(b, h), e)
  {
  }

  lemma ReportOne(b: Breaker.State, x: Exchange, clock: nat -> int, k: nat)
    ensures Breaker.Replay(b, x.Reports(clock, k + 1)) ==
            var a := Breaker.Replay(b, x.Reports(clock, k));
            if Good(x.base(k)) then Breaker.AfterSuccess(a) else Breaker.AfterFailure(a, clock(k))
  {
    var report := if Good(x.base(k)) then Breaker.Succeeded else Breaker.Failed(clock(k));
    assert x.Reports(clock, k + 1) == x.Reports(clock, k) + [report];
    ReplayOne(b, x.Reports(clock, k), report);
  }

  lemma {:induction false} FailuresAddUp(b: Breaker.State, x: Exchange, clock: nat -> int, k: nat)
    requires forall j: nat :: j < k ==> !Good(x.base(j))
    ensures Breaker.Replay(b, x.Reports(clock, k)) == AfterFailures(b, clock, k)
  {
    if k == 0 {
    } else {
      hide *;
      FailuresAddUp(b, x, clock, k - 1);
      ReportOne(b, x, clock, k - 1);
      OneMoreReport(b, clock, k - 1);
    }
  }

  /** What a whole request does to its breaker: it closes it if the last call was good, and
      otherwise counts one failure per call, retries included, so that a single request can open it. */
  lemma ExchangeSettlesBreaker(b: Breaker.State, x: Exchange, clock: nat -> int)
    ensures var k := x.CallsFrom(0);
            Breaker.Replay(b, x.Reports(clock, k)) ==
            if Good(x.base(k - 1)) then Breaker.New(b.threshold, b.cooldown) else AfterFailures(b, clock, k)
  {
    hide *;
    CallsBounded(x);
    var k := x.CallsFrom(0);
    FailuresAddUp(b, x, clock, k - 1);
    ReportOne(b, x, clock, k - 1);
    OneMoreReport(b, clock, k - 1);
  }

  predicate AnswersNeither(x: Exchange) {
    && x.request.body.OneShot? && Idempotent(x.request.verb) && x.attempts > 0
    && x.base(0).response.Some? && x.base(0).response.value >= 500
  }

  /** Attempt j is followed by another: it was no response below 500, a retry is left, the method is one
      that may be repeated, and the body can be sent again. */
  predicate GoesOn(x: Exchange, j: nat) {
    var reply, body := x.base(j), x.request.body;
    && !(reply.error.None? && reply.response.Some? && reply.response.value < 500)
    && j < x.attempts
    && x.request.verb in {"GET", "HEAD", "OPTIONS", "PUT", "DELETE"}
    && (body.Empty? || (body.Rewindable? && body.rewind(j).None?))
  }

  /** Exactly how many calls are made: one more than the attempts before the first that is not followed by
      another. */
  lemma CallsExactly(x: Exchange, k: nat)
    ensures x.CallsFrom(0) == k + 1 <==> !GoesOn(x, k) && forall j: nat :: j < k ==> GoesOn(x, j)
  {
    assert forall j: nat :: GoesOn(x, j) <==> !x.Returns(j);
    assert x.CallsFrom(0) == k + 1 || x.CallsFrom(0) - 1 < k || k < x.CallsFrom(0) - 1;
  }

  /** What is returned after the last call: what the transport gave, unless a retry was called for and the
      body stood in its way.  Then it is the error of rewinding it, or, if it cannot be rewound at all, the
      error of the call without its response. */
  lemma AnswerExactly(x: Exchange)
    ensures var k := x.CallsFrom(0) - 1;
            var reply, body := x.base(k), x.request.body;
            var retry := && !(reply.error.None? && reply.response.Some? && reply.response.value < 500)
                         && k < x.attempts && x.request.verb in {"GET", "HEAD", "OPTIONS", "PUT", "DELETE"};
            && (!retry ==> x.Answer(k) == reply)
            && (retry && body.OneShot? ==> x.Answer(k) == Reply(None, reply.error))
            && (retry && !body.OneShot? ==>
                  && body.Rewindable? && body.rewind(k).Some?
                  && x.Answer(k) == Reply(None, Some(BodyFailed(body.rewind(k).value))))
  {
  }

  /** A GET answered 503 and then 200, with one retry allowed, returns the 200. */
  lemma RetryExample()
    ensures var x := Exchange(Request("GET", Empty), 1, i => Reply(Some(if i == 0 then 503 else 200), None));
            x.CallsFrom(0) == 2 && x.Answer(1) == Reply(Some(200), None)
  {
    CallsExactly(Exchange(Request("GET", Empty), 1, i => Reply(Some(if i == 0 then 503 else 200), None)), 1);
  }

  /** Each call is reported once, as a success exactly if it was a response below 500. */
  lemma ReportsExactly(x: Exchange, clock: nat -> int, k: nat)
    ensures |x.Reports(clock, k)| == k
    ensures forall j: nat :: j < k ==>
              var reply := x.base(j);
              x.Reports(clock, k)[j] ==
              if reply.error.None? && reply.response.Some? && reply.response.value < 500 then Breaker.Succeeded
              else Breaker.Failed(clock(j))
  {
  }

  /** If the transport always gives a response or an error but not both, so does the retry loop, with
      one exception, which a caller can tell from the request and the first answer: a response
      of 500 or more that would be retried, to a request whose body cannot be sent again, is replaced
      by neither. */
  lemma AnswerIsOneOrNeither(x: Exchange)
    requires forall i: nat :: ExactlyOne(x.base(i))
    ensures var answer := x.Answer(x.CallsFrom(0) - 1);
            && (ExactlyOne(answer) <==> !AnswersNeither(x))
            && (answer == Reply(None, None) <==> AnswersNeither(x))
            && (Good(x.base(x.CallsFrom(0) - 1)) ==> answer == x.base(x.CallsFrom(0) - 1))
  {
  }

  /** Such as a PUT of a stream to an upstream that answers 503, with one retry allowed. */
  lemma NeitherExample()
    ensures var x := Exchange(Request("PUT", OneShot), 1, _ => Reply(Some(503), None));
            x.CallsFrom(0) == 1 && x.Answer(0) == Reply(None, None)
  {
  }

  /** The retrying transport of a pool, which shares its breakers. */
  class RetryTransport {
    const attempts: int
    const breakers: seq<Breaker.CircuitBreaker>

    constructor (attempts: int, breakers: seq<Breaker.CircuitBreaker>)
      ensures this.attempts == attempts && this.breakers == breakers
    {
      this.attempts, this.breakers := attempts, breakers;
    }

    /** May a request go out with this index and permit from its context? */
    ghost predicate Refused(index: Option<int>, permit: Option<bool>, now: int)
      reads breakers
    {
      || index.None?
      || !(0 <= index.value < |breakers|)
      || (permit != Some(true) && !Breaker.Admits(breakers[index.value].Value(), now))
    }

    /** `asked` is when the breaker is asked, `clock(i)` when the outcome of attempt i is reported. */
    method RoundTrip(index: Option<int>, permit: Option<bool>, request: Request,
                     base: nat -> Reply, asked: int, clock: nat -> int)
      returns (reply: Reply, calls: nat)
      modifies breakers
      ensures old(Refused(index, permit, asked)) ==>
                && calls == 0 && reply == Reply(None, Some(CircuitOpen))
                && forall b :: b in breakers ==> b.Value() == old(b.Value())
      ensures !old(Refused(index, permit, asked)) ==>
                var x, b := Exchange(request, attempts, base), breakers[index.value];
                && calls == x.CallsFrom(0)
                && reply == x.Answer(calls - 1)
                && b.Value() == Breaker.Replay(
                                  if permit == Some(true) then old(b.Value())
                                  else Breaker.AfterAsk(old(b.Value()), asked), x.Reports(clock, calls))
                && forall other :: other in breakers && other != b ==> other.Value() == old(other.Value())
    {
      calls := 0;
      if index.None? || index.value < 0 || index.value >= |breakers| {
        return Reply(None, Some(CircuitOpen)), 0;
      }
      var breaker := breakers[index.value];
      if permit != Some(true) {
        var allowed := breaker.Allow(asked);
        if !allowed {
          return Reply(None, Some(CircuitOpen)), 0;
        }
      }
      reply, calls := Send(breaker, request, base, clock);
    }

    /** The retry loop of a request that was let through. */
    method Send(breaker: Breaker.CircuitBreaker, request: Request, base: nat -> Reply, clock: nat -> int)
      returns (reply: Reply, calls: nat)
      modifies breaker
      ensures var x := Exchange(request, attempts, base);
              && calls == x.CallsFrom(0)
              && reply == x.Answer(calls - 1)
              && breaker.Value() == Breaker.Replay(old(breaker.Value()), x.Reports(clock, calls))
    {
      ghost var x := Exchange(request, attempts, base);
      var safe := Idempotent(request.verb);
      var attempt := 0;
      while true
        invariant x.CallsFrom(0) == x.CallsFrom(attempt)
        invariant breaker.Value() == Breaker.Replay(old(breaker.Value()), x.Reports(clock, attempt))
        decreases attempts - attempt
      {
        var r := base(attempt);
        ghost var report := if Good(r) then Breaker.Succeeded else Breaker.Failed(clock(attempt));
        ReplayOne(old(breaker.Value()), x.Reports(clock, attempt), report);
        assert x.Reports(clock, attempt + 1) == x.Reports(clock, attempt) + [report];
        if r.error.None? && r.response.Some? && r.response.value < 500 {
          breaker.Success();
          return r, attempt + 1;
        }
        breaker.Failure(clock(attempt));
        if attempt >= attempts || !safe {
          return r, attempt + 1;
        }
        if request.body != Empty {
          if request.body.OneShot? {
            return Reply(None, r.error), attempt + 1;
          }
          var failed := request.body.rewind(attempt);
          if failed.Some? {
            return Reply(None, Some(BodyFailed(failed.value))), attempt + 1;
          }
        }
        attempt := attempt + 1;
      }
    }
  }

  // ---------- The pool itself ----------

  /** The answer of one health check: a status, or no answer at all. */
  datatype Check = Answered(status: int) | NoAnswer

  predicate Passes(c: Check) {
    c.Answered? && 200 <= c.status < 400
  }

  /** A pool after a round of health checks. */
  function Checked(v: View, checks: seq<Check>): (w: View)
    requires v.Valid() && |checks| == |v.healthy|
    ensures w.Valid() && |w.healthy| == |v.healthy|
  {
    View(v.next, seq(|checks|, e requires 0 <= e < |checks| => Passes(checks[e])),
         seq(|checks|, e requires 0 <= e < |checks| =>
           if Passes(checks[e]) then Breaker.AfterSuccess(v.breakers[e]) else v.breakers[e]))
  }

  class UpstreamPool {
    const endpoints: seq<string>
    const breakers: seq<Breaker.CircuitBreaker>
    const healthy: array<bool>
    var next: int

    ghost predicate Valid()
      reads this
    {
      && |endpoints| == |breakers| == healthy.Length
      && 0 < |endpoints| && 2 * |endpoints| <= TWO_TO_64
      && 0 <= next < TWO_TO_64
      && forall i, j :: 0 <= i < j < |breakers| ==> breakers[i] != breakers[j]
    }

    ghost function Now(): (v: View)
      requires Valid()
      reads this, healthy, breakers
      ensures v.Valid()
    {
      View(next, healthy[..],
           seq(|breakers|, i requires 0 <= i < |breakers| reads this, breakers => breakers[i].Value()))
    }

    constructor (endpoints: seq<string>, threshold: int, cooldown: int)
      requires 0 < |endpoints| && 2 * |endpoints| <= TWO_TO_64
      ensures Valid() && this.endpoints == endpoints
      ensures fresh(healthy) && forall b :: b in breakers ==> fresh(b)
      ensures Now() == View(0, seq(|endpoints|, _ => true),
                            seq(|endpoints|, _ => Breaker.New(threshold, cooldown)))
    {
      var made: seq<Breaker.CircuitBreaker> := [];
      while |made| < |endpoints|
        invariant |made| <= |endpoints|
        invariant forall i :: 0 <= i < |made| ==> fresh(made[i])
        invariant forall i :: 0 <= i < |made| ==> made[i].Value() == Breaker.New(threshold, cooldown)
        invariant forall i, j :: 0 <= i < j < |made| ==> made[i] != made[j]
      {
        var breaker := new Breaker.CircuitBreaker(threshold, cooldown);
        made := made + [breaker];
      }
      this.endpoints := endpoints;
      breakers := made;
      healthy := new bool[|endpoints|](_ => true);
      next := 0;
    }

    /** One turn of the loop of `Pick`: advance the counter, then ask the endpoint it names. */
    method TryNext(i: nat, now: int) returns (candidate: int, ok: bool)
      requires Valid() && i < |endpoints|
      modifies this, breakers
      ensures Valid() && candidate == NextCandidate(old(Now()), i)
      ensures ok == old(Now()).CanServe(candidate, now)
      ensures Now() == if ok then Permitted(old(Now()), candidate, now) else Advanced(old(Now()))
    {
      ghost var before := Now();
      next := (next + 1) % TWO_TO_64;
      candidate := (next + i) % TWO_TO_64 % |endpoints|;
      ok := false;
      if healthy[candidate] {
        ok := breakers[candidate].Allow(now);
      }
      assert Now().breakers == if ok then Permitted(before, candidate, now).breakers else before.breakers;
    }

    method Pick(clock: nat -> int) returns (target: string, index: int, permitted: bool)
      requires Valid()
      modifies this, breakers
      ensures Valid()
      ensures 0 <= index < |endpoints| && target == endpoints[index]
      ensures (Now(), index, permitted) == PickView(old(Now()), clock)
    {
      var i := 0;
      while i < |endpoints|
        invariant 0 <= i <= |endpoints| && Valid()
        invariant PickFrom(Now(), clock, i) == PickView(old(Now()), clock)
      {
        var candidate, ok := TryNext(i, clock(i));
        if ok {
          return endpoints[candidate], candidate, true;
        }
        i := i + 1;
      }
      return endpoints[0], 0, false;
    }

    method HasHealthyEndpoint() returns (found: bool)
      requires Valid()
      ensures found <==> exists e :: 0 <= e < |endpoints| && Now().healthy[e]
    {
      for i := 0 to healthy.Length
        invariant forall e :: 0 <= e < i ==> !healthy[e]
      {
        if healthy[i] {
          assert Now().healthy[i];
          return true;
        }
      }
      return false;
    }

    /** A round of health checks: each endpoint is healthy exactly if its check passed, and a
        passing check, and nothing else, closes the breaker. */
    method CheckHealth(checks: seq<Check>)
      requires Valid() && |checks| == |endpoints|
      modifies healthy, breakers
      ensures Valid() && Now() == Checked(old(Now()), checks)
    {
      for i := 0 to |endpoints|
        invariant Valid()
        invariant forall e :: 0 <= e < |endpoints| ==>
                    && healthy[e] == (if e < i then Passes(checks[e]) else old(healthy[e]))
                    && breakers[e].Value() == (if e < i && Passes(checks[e]) then
                                                 Breaker.AfterSuccess(old(breakers[e].Value()))
                                               else old(breakers[e].Value()))
      {
        match checks[i]
        case Answered(status) =>
          var up := 200 <= status < 400;
          healthy[i] := up;
          if up {
            breakers[i].Success();
          }
        case NoAnswer =>
          healthy[i] := false;
      }
    }
  }

  /** Endpoint by endpoint: a status from 200 to 399 makes it healthy and closes its breaker for good, any
      other status, or none, makes it unhealthy and leaves its breaker alone. */
  lemma CheckedEndpoint(v: View, checks: seq<Check>, e: int)
    requires v.Valid() && |checks| == |v.healthy| && 0 <= e < |checks|
    ensures var w := Checked(v, checks);
            && w.next == v.next
            && match checks[e]
               case NoAnswer => !w.healthy[e] && w.breakers[e] == v.breakers[e]
               case Answered(status) =>
                 if 200 <= status <= 399 then
                   w.healthy[e] && w.breakers[e] == Breaker.New(v.breakers[e].threshold, v.breakers[e].cooldown)
                 else !w.healthy[e] && w.breakers[e] == v.breakers[e]
  {
  }

  /** An endpoint that nothing but a failure report or a failed check can take out of service. */
  predicate Serving(v: View, e: int)
    requires v.Valid()
  {
    0 <= e < |v.healthy| && v.healthy[e] && v.breakers[e].openUntil.None?
  }

  lemma PickKeepsServing(v: View, clock: nat -> int, e: int)
    requires v.Valid() && Serving(v, e) && v.next + |v.healthy| < TWO_TO_64
    ensures var w := PickView(v, clock).0;
            w.Valid() && |w.healthy| == |v.healthy| && Serving(w, e) && v.next <= w.next <= v.next + |v.healthy|
  {
    hide PickView, Probe, Ready;
    PickMeaning(v, clock);
    var r := PickView(v, clock);
    if r.2 {
      var i :| StopsAt(v, clock, i, r);
    }
  }

  lemma MoreOf(k: int, n: int)
    ensures (k + 1) * n == k * n + n && (k - 1) * n == k * n - n
  {
  }

  /** One passing check makes every following pick of an odd pool succeed, up to a counter overflow and
      as long as no failure is reported, because it also closes the breaker. */
  lemma {:induction false} CheckedPoolServes(v: View, checks: seq<Check>, clocks: seq<nat -> int>, e: int)
    requires v.Valid() && |checks| == |v.healthy| && |v.healthy| % 2 == 1
    requires v.next + (|clocks| + 1) * |v.healthy| < TWO_TO_64
    requires 0 <= e < |checks| && Passes(checks[e])
    requires forall k :: 0 <= k < |clocks| ==> Monotone(clocks[k])
    ensures var r := Picks(Checked(v, checks), clocks);
            && Serving(r.0, e) && v.next <= r.0.next <= v.next + |clocks| * |v.healthy|
            && |r.1| == |clocks| && forall k :: 0 <= k < |clocks| ==> r.1[k].1
  {
    if |clocks| == 0 {
    } else {
      var earlier, clock := clocks[..|clocks| - 1], clocks[|clocks| - 1];
      MoreOf(|clocks|, |v.healthy|);
      CheckedPoolServes(v, checks, earlier, e);
      var w := Picks(Checked(v, checks), earlier).0;
      assert w.CanServe(e, clock(0));
      OddPickFindsServer(w, clock);
      PickKeepsServing(w, clock, e);
    }
  }
}
