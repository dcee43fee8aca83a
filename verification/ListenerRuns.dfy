/** The connection limit with any number of callers at once: accepting, and closing the same or different
    connections.  `Close` tests its release function, calls it, and clears it, in three steps, so two calls
    may both pass the test. */
module ListenerRuns {
  /** Where a call of Close is: before the test, past it, or with the slot received but the release
      function not yet cleared.  A call that finds the function cleared after the test has failed. */
  datatype Closer =
    | Called(conn: nat)
    | Passed(conn: nat)
    | Received(conn: nat)
    | Returned(conn: nat)
    | Crashed(conn: nat)

  /** `armed[c]` says that connection c still has its release function.  `received` lists the connections on
      whose behalf a slot has been received (history, not program state). */
  datatype Listener = Listener(limit: nat, slots: nat, pending: nat, armed: map<nat, bool>,
                               closers: map<nat, Closer>, received: seq<nat>)

  datatype Step =
    | BeginAccept
    | EndAccept(ok: bool, conn: nat)
    | Call(k: nat, conn: nat)
    | Test(k: nat)
    | Receive(k: nat)
    | Clear(k: nat)

  predicate Enabled(s: Listener, step: Step) {
    match step
    case BeginAccept => s.slots < s.limit
    case EndAccept(ok, conn) => s.pending > 0 && (if ok then conn !in s.armed else s.slots > 0)
    case Call(k, conn) => k !in s.closers && conn in s.armed
    case Test(k) => k in s.closers && s.closers[k].Called? && s.closers[k].conn in s.armed
    // a receive from an empty channel waits
    case Receive(k) =>
      && k in s.closers && s.closers[k].Passed? && s.closers[k].conn in s.armed
      && (s.armed[s.closers[k].conn] ==> s.slots > 0)
    case Clear(k) => k in s.closers && s.closers[k].Received? && s.closers[k].conn in s.armed
  }

  function Next(s: Listener, step: Step): Listener
    requires Enabled(s, step)
  {
    match step
    case BeginAccept => s.(slots := s.slots + 1, pending := s.pending + 1)
    case EndAccept(ok, conn) =>
      if ok then s.(pending := s.pending - 1, armed := s.armed[conn := true])
      else s.(pending := s.pending - 1, slots := s.slots - 1)
    case Call(k, conn) => s.(closers := s.closers[k := Called(conn)])
    case Test(k) =>
      var c := s.closers[k].conn;
      s.(closers := s.closers[k := if s.armed[c] then Passed(c) else Returned(c)])
    case Receive(k) =>
      var c := s.closers[k].conn;
      if s.armed[c] then s.(slots := s.slots - 1, closers := s.closers[k := Received(c)], received := s.received + [c])
      else s.(closers := s.closers[k := Crashed(c)])
    case Clear(k) =>
      var c := s.closers[k].conn;
      s.(armed := s.armed[c := false], closers := s.closers[k := Returned(c)])
  }

  ghost predicate Run(s: Listener, steps: seq<Step>, t: Listener)
    decreases |steps|
  {
    if |steps| == 0 then s == t
    else Enabled(s, steps[0]) && Run(Next(s, steps[0]), steps[1..], t)
  }

  function Start(limit: nat): Listener {
    Listener(limit, 0, 0, map[], map[], [])
  }

  // ---------- With overlapping closes ----------

  /** In every interleaving the slots are the pending accepts and the connections handed out, less the slots
      received for them, and never exceed the limit. */
  predicate Balanced(s: Listener) {
    s.slots + |s.received| == s.pending + |s.armed| && s.slots <= s.limit
  }

  lemma SizeAfter(m: map<nat, bool>, c: nat, v: bool)
    ensures |m[c := v]| == |m| + if c in m then 0 else 1
  {
    var n := m[c := v];
    assert n.Keys == m.Keys + {c};
    assert |n| == |n.Keys| && |m| == |m.Keys|;
  }

  lemma StepBalances(s: Listener, step: Step)
    requires Balanced(s) && Enabled(s, step)
    ensures Balanced(Next(s, step))
  {
    match step
    case EndAccept(ok, conn) => SizeAfter(s.armed, conn, true);
    case Clear(k) => SizeAfter(s.armed, s.closers[k].conn, false);
    case _ =>
  }

  lemma {:induction false} RunBalances(s: Listener, steps: seq<Step>, t: Listener)
    requires Balanced(s) && Run(s, steps, t)
    ensures Balanced(t)
    decreases |steps|
  {
    if |steps| == 0 {
      assert s == t;
    } else {
      StepBalances(s, steps[0]);
      RunBalances(Next(s, steps[0]), steps[1..], t);
    }
  }

  // ---------- Without ----------

  predicate Inside(c: Closer) {
    c.Passed? || c.Received?
  }

  /** No two calls of Close on one connection are both between the test and the clearing. */
  predicate Exclusive(s: Listener) {
    forall k, l :: k in s.closers && l in s.closers && k != l && Inside(s.closers[k]) && Inside(s.closers[l]) ==>
      s.closers[k].conn != s.closers[l].conn
  }

  predicate StaysExclusive(s: Listener, steps: seq<Step>)
    decreases |steps|
  {
    Exclusive(s) && (|steps| > 0 ==> Enabled(s, steps[0]) && StaysExclusive(Next(s, steps[0]), steps[1..]))
  }

  predicate NoRepeats(s: seq<nat>) {
    forall i, j :: 0 <= i < j < |s| ==> s[i] != s[j]
  }

  /** Call k has received the slot of connection c and will clear its release function. */
  predicate Clears(s: Listener, k: nat, c: nat) {
    k in s.closers && s.closers[k] == Received(c)
  }

  /** A slot has been received for a connection exactly if its release function is cleared or about to be. */
  ghost predicate Spent(s: Listener, c: nat) {
    c in s.armed && (c in s.received <==> !s.armed[c] || exists k :: Clears(s, k, c))
  }

  predicate CloserFits(s: Listener, c: Closer) {
    && c.conn in s.armed && !c.Crashed?
    && (c.Passed? ==> s.armed[c.conn] && c.conn !in s.received)
    && (c.Received? ==> s.armed[c.conn] && c.conn in s.received)
  }

  ghost predicate OncePerConnection(s: Listener) {
    && Balanced(s) && Exclusive(s) && NoRepeats(s.received)
    && (forall c :: c in s.received || c in s.armed ==> Spent(s, c))
    && (forall k :: k in s.closers ==> CloserFits(s, s.closers[k]))
  }

  lemma TwoInside(s: Listener, k: nat, l: nat)
    requires Enabled(s, Test(k)) && s.armed[s.closers[k].conn] && Clears(s, l, s.closers[k].conn)
    ensures !Exclusive(Next(s, Test(k)))
  {
    var t := Next(s, Test(k));
    assert Inside(t.closers[k]) && Inside(t.closers[l]);
  }

  lemma CloserStep(s: Listener, step: Step, k: nat)
    requires OncePerConnection(s) && Enabled(s, step) && Exclusive(Next(s, step)) && k in Next(s, step).closers
    ensures CloserFits(Next(s, step), Next(s, step).closers[k])
  {
    hide Balanced;
    var t := Next(s, step);
    if k in s.closers {
      assert CloserFits(s, s.closers[k]);
    }
    if step.Test? && step.k == k && t.closers[k].Passed? {
      var c := t.closers[k].conn;
      assert Spent(s, c);
      if l :| Clears(s, l, c) {
        TwoInside(s, k, l);
        assert false;
      }
    } else if (step.Receive? || step.Clear?) && step.k != k && k in s.closers {
      assert CloserFits(s, s.closers[step.k]) && Inside(s.closers[step.k]);
    }
  }

  lemma SpentStep(s: Listener, step: Step, c: nat)
    requires OncePerConnection(s) && Enabled(s, step)
    requires c in Next(s, step).received || c in Next(s, step).armed
    ensures Spent(Next(s, step), c)
  {
    hide Balanced, Exclusive, NoRepeats;
    var t := Next(s, step);
    if c in s.received || c in s.armed {
      assert Spent(s, c);
      if k :| Clears(s, k, c) {
        assert Clears(t, k, c) || step == Clear(k);
      }
    }
    if step.Receive? {
      assert CloserFits(s, s.closers[step.k]);
      assert Clears(t, step.k, s.closers[step.k].conn);
    }
    if k :| Clears(t, k, c) {
      assert Clears(s, k, c) || step == Receive(k);
      assert k in s.closers && CloserFits(s, s.closers[k]);
    }
  }

  lemma StepKeepsOnce(s: Listener, step: Step)
    requires OncePerConnection(s) && Enabled(s, step) && Exclusive(Next(s, step))
    ensures OncePerConnection(Next(s, step))
  {
    var t := Next(s, step);
    StepBalances(s, step);
    if step.Receive? {
      assert CloserFits(s, s.closers[step.k]);
    }
    hide Balanced, Exclusive, Spent, CloserFits;
    forall c | c in t.received || c in t.armed ensures Spent(t, c) {
      SpentStep(s, step, c);
    }
    forall k | k in t.closers ensures CloserFits(t, t.closers[k]) {
      CloserStep(s, step, k);
    }
  }

  lemma {:induction false} CountWithin(s: seq<nat>, all: set<nat>)
    requires NoRepeats(s) && forall i :: 0 <= i < |s| ==> s[i] in all
    ensures |s| <= |all|
  {
    if |s| == 0 {
      assert |s| == 0;
    } else {
      CountWithin(s[1..], all - {s[0]});
    }
  }

  /** As long as closes of one connection do not overlap, each connection gives back one slot, however often
      it is closed, and no call of Close waits or crashes. */
  lemma {:induction false} OneSlotEach(s: Listener, steps: seq<Step>, t: Listener)
    requires OncePerConnection(s) && Run(s, steps, t) && StaysExclusive(s, steps)
    ensures OncePerConnection(t)
    ensures forall k :: k in t.closers && t.closers[k].Passed? ==> Enabled(t, Receive(k))
    decreases |steps|
  {
    if |steps| == 0 {
      forall k | k in t.closers && t.closers[k].Passed? ensures Enabled(t, Receive(k)) {
        var c := t.closers[k].conn;
        CountWithin(t.received, t.armed.Keys - {c});
        assert |t.armed.Keys - {c}| == |t.armed| - 1;
      }
    } else {
      StepKeepsOnce(s, steps[0]);
      OneSlotEach(Next(s, steps[0]), steps[1..], t);
    }
  }

  lemma StartsOnce(limit: nat)
    ensures OncePerConnection(Start(limit))
  {
  }

  // ---------- That condition is needed ----------

  /** Whenever two calls have passed the test for one connection, they can receive two slots for it, and one
      of them can crash. */
  lemma OverlapBreaks(s: Listener, k: nat, l: nat) returns (t: Listener, u: Listener)
    requires k in s.closers && l in s.closers && k != l
    requires s.closers[k].Passed? && s.closers[l] == s.closers[k] && s.closers[k].conn in s.armed
    requires s.armed[s.closers[k].conn] && s.slots >= 2
    ensures Run(s, [Receive(k), Receive(l)], t) && t.slots == s.slots - 2
    ensures t.received == s.received + [s.closers[k].conn, s.closers[k].conn] && !NoRepeats(t.received)
    ensures Run(s, [Receive(k), Clear(k), Receive(l)], u) && l in u.closers && u.closers[l].Crashed?
  {
    var a := Next(s, Receive(k));
    t := Next(a, Receive(l));
    assert t.received[|s.received|] == t.received[|s.received| + 1];
    var b := Next(a, Clear(k));
    u := Next(b, Receive(l));
    var two, three := [Receive(k), Receive(l)], [Receive(k), Clear(k), Receive(l)];
    assert Run(a, two[1..], t) by { assert two[1..][1..] == []; }
    assert Run(b, three[2..], u) by { assert three[2..][1..] == []; }
    assert Run(a, three[1..], u) by { assert three[1..][1..] == three[2..]; }
  }

  lemma {:induction false} OneMore(s: Listener, steps: seq<Step>, t: Listener, step: Step) returns (u: Listener)
    requires Run(s, steps, t) && Enabled(t, step)
    ensures u == Next(t, step) && Run(s, steps + [step], u)
    decreases |steps|
  {
    if |steps| == 0 {
      u := Next(t, step);
      assert [step][1..] == [] && steps + [step] == [step];
    } else {
      u := OneMore(Next(s, steps[0]), steps[1..], t, step);
      assert (steps + [step])[1..] == steps[1..] + [step];
    }
  }

  lemma Accepted(s: Listener, steps: seq<Step>, t: Listener, conn: nat) returns (u: Listener)
    requires Run(s, steps, t) && t.slots < t.limit && conn !in t.armed
    ensures Run(s, steps + [BeginAccept] + [EndAccept(true, conn)], u)
    ensures u == t.(slots := t.slots + 1, armed := t.armed[conn := true])
  {
    u := OneMore(s, steps, t, BeginAccept);
    u := OneMore(s, steps + [BeginAccept], u, EndAccept(true, conn));
  }

  lemma RunsToItself(s: Listener)
    ensures Run(s, [], s)
  {
  }

  /** A limit of 1, a connection that two calls close at once, and then two connections open together. */
  lemma OverlapExceedsLimit() returns (steps: seq<Step>, t: Listener)
    ensures Run(Start(1), steps, t) && t.limit == 1
    ensures t.armed == map[1 := true, 2 := true, 3 := true]
    ensures forall k :: k in t.closers ==> t.closers[k].conn == 1
  {
    hide Run;
    steps := [];
    t := Start(1);
    assert Run(t, steps, t) by { RunsToItself(t); }
    t := Accepted(Start(1), steps, t, 1);
    steps := steps + [BeginAccept] + [EndAccept(true, 1)];
    t := OneMore(Start(1), steps, t, Call(1, 1));
    steps := steps + [Call(1, 1)];
    t := OneMore(Start(1), steps, t, Call(2, 1));
    steps := steps + [Call(2, 1)];
    t := OneMore(Start(1), steps, t, Test(1));
    steps := steps + [Test(1)];
    t := OneMore(Start(1), steps, t, Test(2));
    steps := steps + [Test(2)];
    t := OneMore(Start(1), steps, t, Receive(1));
    steps := steps + [Receive(1)];
    t := Accepted(Start(1), steps, t, 2);
    steps := steps + [BeginAccept] + [EndAccept(true, 2)];
    t := OneMore(Start(1), steps, t, Receive(2));
    steps := steps + [Receive(2)];
    t := Accepted(Start(1), steps, t, 3);
    steps := steps + [BeginAccept] + [EndAccept(true, 3)];
  }
}
