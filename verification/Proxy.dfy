/** One request through the reverse proxy of a pool: the Director picks an endpoint, the transport sends
    the request there, unless the breaker of that endpoint, asked again for want of a permit, refuses. */
module Proxy {
  import opened Wrappers
  import opened Probes
  import opened Pool
  import Breaker

  /** What a request brings along: when the Director reads the clock, when the transport asks for want of a
      permit, when outcomes are reported, and what each endpoint would answer to each attempt. */
  datatype Arrival = Arrival(request: Request, picked: nat -> int, asked: int, reported: nat -> int,
                             upstream: int -> nat -> Reply)
  {
    function To(e: int, attempts: int): Exchange {
      Exchange(request, attempts, upstream(e))
    }
  }

  datatype Sent = Sent(view: View, index: int, reply: Reply, calls: nat)

  /** The transport at one breaker. */
  function Transported(b: Breaker.State, permitted: bool, x: Exchange, asked: int, clock: nat -> int)
    : (Breaker.State, Reply, nat)
  {
    if !permitted && !Breaker.Admits(b, asked) then (b, Reply(None, Some(CircuitOpen)), 0)
    else
      var k := x.CallsFrom(0);
      (Breaker.Replay(if permitted then b else Breaker.AfterAsk(b, asked), x.Reports(clock, k)), x.Answer(k - 1), k)
  }

  function Forwarded(v: View, a: Arrival, attempts: int): (s: Sent)
    requires v.Valid()
    ensures s.view.Valid() && |s.view.healthy| == |v.healthy| && 0 <= s.index < |v.healthy|
  {
    var (w, e, permitted) := PickView(v, a.picked);
    var (b, reply, calls) := Transported(w.breakers[e], permitted, a.To(e, attempts), a.asked, a.reported);
    Sent(w.(breakers := w.breakers[e := b]), e, reply, calls)
  }

  class ReverseProxy {
    const pool: UpstreamPool
    const transport: RetryTransport

    ghost predicate Valid()
      reads pool
    {
      pool.Valid() && transport.breakers == pool.breakers
    }

    constructor (pool: UpstreamPool, transport: RetryTransport)
      requires pool.Valid() && transport.breakers == pool.breakers
      ensures Valid() && this.pool == pool && this.transport == transport
    {
      this.pool, this.transport := pool, transport;
    }

    method Serve(a: Arrival) returns (index: int, reply: Reply, calls: nat)
      requires Valid()
      modifies pool, pool.breakers
      ensures Valid()
      ensures Sent(pool.Now(), index, reply, calls) == Forwarded(old(pool.Now()), a, transport.attempts)
    {
      hide PickView, Breaker.Replay, Exchange.CallsFrom, Exchange.Answer, Exchange.Reports;
      var target, e, permitted := pool.Pick(a.picked);
      ghost var w := pool.Now();
      index := e;
      reply, calls := transport.RoundTrip(Some(e), Some(permitted), a.request, a.upstream(e), a.asked, a.reported);
      assert pool.Now().breakers == w.breakers[e := pool.breakers[e].Value()];
    }
  }

  // ---------- A parity class without healthy endpoints ----------

  ghost predicate DeadClass(v: View)
    requires v.Valid()
  {
    forall e :: 0 <= e < |v.healthy| && e % 2 == (v.next + 1) % 2 ==> !v.healthy[e]
  }

  /** In an even pool whose next class is dead, a request goes to endpoint 0 without a permit.  It is
      refused exactly if that breaker does not let it through.  If it is sent, then to a healthy endpoint
      only if the dead class is the odd one, whatever healthy endpoints the other class has. */
  lemma DeadClassForwards(v: View, a: Arrival, attempts: int)
    requires v.Valid() && |v.healthy| % 2 == 0 && DeadClass(v)
    ensures var s := Forwarded(v, a, attempts);
            && s.index == 0
            && (s.calls == 0 <==> !Breaker.Admits(v.breakers[0], a.asked))
            && (s.calls == 0 ==> s.reply == Reply(None, Some(CircuitOpen)) && s.view.breakers == v.breakers)
            && (s.calls > 0 ==> s.reply == a.To(0, attempts).Answer(s.calls - 1))
            && (v.healthy[0] ==> (v.next + 1) % 2 == 1)
            && s.view.healthy == v.healthy && s.view.next % 2 == v.next % 2
            && s.view.breakers[1..] == v.breakers[1..]
  {
    hide PickView, Breaker.Replay, Exchange.Reports, Exchange.Answer;
    forall i: nat ensures NoServer(v, a.picked(i)) {
    }
    NoServerPick(v, a.picked);
  }

  /** The pool after a sequence of requests, one after the other, and where each of them went. */
  function Served(v: View, arrivals: seq<Arrival>, attempts: int): (r: (View, seq<Sent>))
    requires v.Valid()
    ensures r.0.Valid() && |r.0.healthy| == |v.healthy|
  {
    if |arrivals| == 0 then (v, [])
    else
      var before := Served(v, arrivals[..|arrivals| - 1], attempts);
      var s := Forwarded(before.0, arrivals[|arrivals| - 1], attempts);
      (s.view, before.1 + [s])
  }

  /** And so on for every later request, whatever the upstreams answer: endpoint 0 alone is called, and
      no other breaker ever changes.  Only a health check can end it. */
  lemma {:induction false} DeadClassStarves(v: View, arrivals: seq<Arrival>, attempts: int)
    requires v.Valid() && |v.healthy| % 2 == 0 && DeadClass(v)
    ensures var r := Served(v, arrivals, attempts);
            && |r.1| == |arrivals| && (forall k :: 0 <= k < |arrivals| ==> r.1[k].index == 0)
            && r.0.healthy == v.healthy && r.0.breakers[1..] == v.breakers[1..] && DeadClass(r.0)
            && r.0.next % 2 == v.next % 2
  {
    if |arrivals| == 0 {
    } else {
      hide Forwarded;
      DeadClassStarves(v, arrivals[..|arrivals| - 1], attempts);
      var w := Served(v, arrivals[..|arrivals| - 1], attempts).0;
      DeadClassForwards(w, arrivals[|arrivals| - 1], attempts);
      SameParity(Forwarded(w, arrivals[|arrivals| - 1], attempts).view.next + 1, w.next + 1);
    }
  }

  /** A pool of two, its odd half dead: the request that the failed pick leaves without a permit reaches
      the healthy endpoint 0 all the same. */
  lemma HealthyHalfReached(a: Arrival)
    ensures var v := View(0, [true, false], [Breaker.New(5, 10), Breaker.New(5, 10)]);
            v.Valid() && Forwarded(v, a, 0).index == 0 && Forwarded(v, a, 0).calls > 0
  {
    DeadClassForwards(View(0, [true, false], [Breaker.New(5, 10), Breaker.New(5, 10)]), a, 0);
  }

  /** With the even half dead instead, it is sent to the endpoint known to be down, and refused once that
      breaker is open, although endpoint 1 is healthy and closed all the time. */
  lemma HealthyHalfMissed(a: Arrival, until: int)
    requires a.asked < until
    ensures var v := View(1, [false, true], [Breaker.New(5, 10), Breaker.New(5, 10)]);
            v.Valid() && v.CanServe(1, a.asked) && Forwarded(v, a, 0).index == 0 && Forwarded(v, a, 0).calls > 0
    ensures var v := View(1, [false, true], [Breaker.State(5, 10, 5, Some(until), false), Breaker.New(5, 10)]);
            v.Valid() && v.CanServe(1, a.asked) && Forwarded(v, a, 0).reply == Reply(None, Some(CircuitOpen))
  {
    DeadClassForwards(View(1, [false, true], [Breaker.New(5, 10), Breaker.New(5, 10)]), a, 0);
    DeadClassForwards(View(1, [false, true], [Breaker.State(5, 10, 5, Some(until), false), Breaker.New(5, 10)]), a, 0);
  }
}
