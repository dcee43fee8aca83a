/** The order in which `pick` probes the endpoints of a pool.
    Both the shared 64-bit counter and the loop index advance on each probe, so an undisturbed
    walk steps through the endpoints two at a time. */
module Probes {
  const TWO_TO_64: int := 0x1_0000_0000_0000_0000

  function Slot(c: int, i: nat): int {
    ((c + 1 + i) % TWO_TO_64 + i) % TWO_TO_64
  }

  /** The endpoint tried by probe i of an undisturbed pick that starts at counter c: i + 1
      increments of the counter, plus the loop index, both in 64-bit arithmetic. */
  function Probe(c: int, i: nat, n: int): int
    requires n > 0
  {
    Slot(c, i) % n
  }

  ghost predicate Visits(c: int, n: int, e: int)
    requires n > 0
  {
    exists i :: 0 <= i < n && Probe(c, i, n) == e
  }

  ghost predicate VisitsAll(c: int, n: int)
    requires n > 0
  {
    forall e :: 0 <= e < n ==> Visits(c, n, e)
  }

  /** The counter overflows after the first probe of the walk but before its last. */
  predicate WrapsInside(c: int, n: int) {
    c + 1 < TWO_TO_64 <= c + 2 * n - 1
  }

  // ---------- Remainders ----------

  lemma SmallMultiple(n: int, d: int)
    requires n > 0 && -n < n * d < n
    ensures d == 0
  {
  }

  lemma SameRemainder(x: int, y: int, n: int, k: int)
    requires n > 0 && x == y + n * k
    ensures x % n == y % n
  {
    var d := x / n - y / n - k;
    assert n * d == y % n - x % n;
    SmallMultiple(n, d);
  }

  lemma SmallRemainder(x: int, n: int)
    requires 0 <= x < n
    ensures x % n == x
  {
  }

  lemma EvenTimes(n: int, k: int)
    requires n % 2 == 0
    ensures n * k % 2 == 0
  {
    var a := n / 2;
    assert n * k == 2 * (a * k);
  }

  lemma RemainderParity(x: int, n: int)
    requires n > 0 && n % 2 == 0
    ensures x % n % 2 == x % 2
  {
    EvenTimes(n, x / n);
    assert x == n * (x / n) + x % n;
  }

  /** The multiple by which two numbers with the same remainder differ. */
  lemma RemainderGap(x: int, y: int, n: int) returns (k: int)
    requires n > 0 && x % n == y % n
    ensures x == y + n * k
  {
    k := x / n - y / n;
    assert n * k == n * (x / n) - n * (y / n);
  }

  lemma OddFactor(n: int, q: int)
    requires n % 2 == 1
    ensures n * q % 2 == q % 2
  {
    var a := n / 2;
    assert n * q == 2 * (a * q) + q;
  }

  lemma Doubled(n: int, h: int)
    ensures n * (2 * h) == 2 * (n * h)
  {
  }

  /** An odd number that divides 2x divides x. */
  lemma OddHalves(n: int, x: int, q: int)
    requires n % 2 == 1 && 2 * x == n * q
    ensures q % 2 == 0 && x == n * (q / 2)
  {
    OddFactor(n, q);
    Doubled(n, q / 2);
  }

  lemma NoSmallHalf(n: int, x: int, q: int)
    requires n > 0 && n % 2 == 1 && -n < x < n && 2 * x == n * q
    ensures x == 0
  {
    OddHalves(n, x, q);
    SmallMultiple(n, q / 2);
  }

  function PowerOfTwo(k: nat): nat {
    if k == 0 then 1 else 2 * PowerOfTwo(k - 1)
  }

  lemma {:induction false} OddDividesNoPower(n: int, k: nat, q: int)
    requires n > 1 && n % 2 == 1
    ensures PowerOfTwo(k) != n * q
  {
    if PowerOfTwo(k) == n * q {
      if k == 0 {
        SmallMultiple(n, q);
        assert false;
      } else {
        OddHalves(n, PowerOfTwo(k - 1), q);
        OddDividesNoPower(n, k - 1, q / 2);
        assert false;
      }
    }
  }

  lemma {:induction false} PowersAdd(j: nat, k: nat)
    ensures PowerOfTwo(j + k) == PowerOfTwo(j) * PowerOfTwo(k)
  {
    if j == 0 {
    } else {
      PowersAdd(j - 1, k);
    }
  }

  lemma CounterRange()
    ensures PowerOfTwo(64) == TWO_TO_64
  {
    assert PowerOfTwo(2) == 4;
    PowersAdd(2, 2); PowersAdd(4, 4); PowersAdd(8, 8); PowersAdd(16, 16); PowersAdd(32, 32);
    assert PowerOfTwo(4) == 16;
    assert PowerOfTwo(8) == 256;
    assert PowerOfTwo(16) == 65536;
    assert PowerOfTwo(32) == 65536 * 65536;
  }

  // ---------- What a walk visits ----------

  /** The two increments, with the overflow made explicit. */
  lemma SlotValue(c: int, i: nat)
    requires 0 <= c < TWO_TO_64 && 2 * i < TWO_TO_64
    ensures Slot(c, i) == if c + 1 + 2 * i < TWO_TO_64 then c + 1 + 2 * i else c + 1 + 2 * i - TWO_TO_64
  {
  }

  /** Without an overflow inside the walk all probes are c + 1 + 2i for one and the same start. */
  function Start(c: int): int {
    if c + 1 < TWO_TO_64 then c + 1 else c + 1 - TWO_TO_64
  }

  lemma ProbeFromStart(c: int, i: nat, n: int)
    requires 0 <= c < TWO_TO_64 && 0 <= i < n && 2 * n <= TWO_TO_64
    requires !WrapsInside(c, n)
    ensures Probe(c, i, n) == (Start(c) + 2 * i) % n
  {
    SlotValue(c, i);
  }

  lemma Distance(s: int, e: int, n: int) returns (d: int, k: int)
    requires n > 0
    ensures 0 <= d < n && e == s + d + n * k
    ensures n % 2 == 0 && e % 2 == s % 2 ==> d % 2 == 0
  {
    d, k := (e - s) % n, (e - s) / n;
    if n % 2 == 0 { RemainderParity(e - s, n); }
  }

  lemma ShiftOnce(n: int, k: int)
    ensures n * (k - 1) == n * k - n
  {
  }

  /** Stepping by two from s reaches e, if the distance is even or n is odd. */
  lemma StepTo(s: int, e: int, n: int) returns (i: nat, k: int)
    requires n > 0
    requires n % 2 == 1 || e % 2 == s % 2
    ensures i < n && e == s + 2 * i + n * k
  {
    var d;
    d, k := Distance(s, e, n);
    if d % 2 == 0 {
      i := d / 2;
    } else {
      i := (d + n) / 2;
      ShiftOnce(n, k);
      k := k - 1;
    }
  }

  lemma Lands(x: int, e: int, n: int, k: int)
    requires 0 <= e < n && e == x + n * k
    ensures x % n == e
  {
    SmallRemainder(e, n);
    SameRemainder(e, x, n, k);
  }

  /** For an odd number of endpoints no two probes of a walk without overflow coincide. */
  lemma OddProbesDistinct(c: int, n: int, i: nat, j: nat)
    requires 0 <= c < TWO_TO_64 && 2 * n <= TWO_TO_64 && n % 2 == 1
    requires !WrapsInside(c, n)
    requires i < j < n
    ensures Probe(c, i, n) != Probe(c, j, n)
  {
    ProbeFromStart(c, i, n);
    ProbeFromStart(c, j, n);
    if Probe(c, i, n) == Probe(c, j, n) {
      var k := RemainderGap(Start(c) + 2 * j, Start(c) + 2 * i, n);
      NoSmallHalf(n, j - i, k);
      assert false;
    }
  }

  /** Half of the counter range, in steps of two around the odd circle. */
  lemma HalfTurn(n: int) returns (d: int, k: int)
    requires n > 1 && n % 2 == 1
    ensures 0 < d < n && 2 * d == TWO_TO_64 + n * k
  {
    var m, q := TWO_TO_64 % n, TWO_TO_64 / n;
    assert TWO_TO_64 == n * q + m;
    CounterRange();
    OddDividesNoPower(n, 64, q);
    assert n * -q == -(n * q);
    if m % 2 == 0 {
      d, k := m / 2, -q;
    } else {
      d, k := (m + n) / 2, 1 - q;
      ShiftOnce(n, q);
      assert n * (1 - q) == -(n * (q - 1));
    }
  }

  /** After the overflow the walk is shifted by half a turn, so it repeats itself and skips one. */
  lemma MissedEndpoint(c: int, n: int) returns (e: int)
    requires 0 <= c < TWO_TO_64 && 0 < 2 * n <= TWO_TO_64 && n % 2 == 1
    requires WrapsInside(c, n)
    ensures 0 <= e < n && !Visits(c, n, e)
  {
    var first := (TWO_TO_64 - c) / 2;  // the first probe after the overflow
    var d, k := HalfTurn(n);
    var j := if n - d >= first then n - d else first;
    e := (c + 1 + 2 * j) % n;
    forall i | 0 <= i < n ensures Probe(c, i, n) != e {
      SlotValue(c, i);
      if Probe(c, i, n) == e {
        if i < first {
          var q := RemainderGap(c + 1 + 2 * j, c + 1 + 2 * i, n);
          OddHalves(n, j - i, q);
          SmallMultiple(n, q / 2);
          assert false;
        } else {
          var q := RemainderGap(c + 1 + 2 * i - TWO_TO_64, c + 1 + 2 * j, n);
          assert 2 * (i - j - d) == n * (q - k);
          OddHalves(n, i - j - d, q - k);
          SmallMultiple(n, (q - k) / 2);
          assert false;
        }
      }
    }
  }

  /** The exact coverage of a walk over an odd number of endpoints: every endpoint is tried
      unless the counter overflows inside the walk, and then some endpoint is missed. */
  lemma OddWalkVisitsAll(c: int, n: int)
    requires 0 <= c < TWO_TO_64 && 0 < 2 * n <= TWO_TO_64 && n % 2 == 1
    ensures VisitsAll(c, n) <==> !WrapsInside(c, n)
  {
    if WrapsInside(c, n) {
      var e := MissedEndpoint(c, n);
    } else {
      forall e | 0 <= e < n ensures Visits(c, n, e) {
        var i, k := StepTo(Start(c), e, n);
        ProbeFromStart(c, i, n);
        Lands(Start(c) + 2 * i, e, n, k);
      }
    }
  }

  /** For an even number of endpoints a walk only ever sees one parity class, whatever the counter. */
  lemma EvenWalkKeepsParity(c: int, n: int, i: nat)
    requires 0 <= c < TWO_TO_64 && 0 < n && 2 * n <= TWO_TO_64 && n % 2 == 0
    requires i < n
    ensures Probe(c, i, n) % 2 == (c + 1) % 2
  {
    SlotValue(c, i);
    RemainderParity(Slot(c, i), n);
  }

  /** And without an overflow it sees all of that class. */
  lemma EvenWalkVisits(c: int, n: int, e: int)
    requires 0 <= c < TWO_TO_64 && 0 < n && 2 * n <= TWO_TO_64 && n % 2 == 0
    requires !WrapsInside(c, n) && 0 <= e < n
    ensures Visits(c, n, e) <==> e % 2 == (c + 1) % 2
  {
    if e % 2 == (c + 1) % 2 {
      var i, k := StepTo(Start(c), e, n);
      ProbeFromStart(c, i, n);
      Lands(Start(c) + 2 * i, e, n, k);
    } else {
      forall i | 0 <= i < n ensures Probe(c, i, n) != e {
        EvenWalkKeepsParity(c, n, i);
      }
    }
  }

  // ---------- Balance of first probes ----------

  /** How many of the k picks after counter c start at endpoint e. */
  function Tally(c: int, k: nat, n: int, e: int): nat
    requires n > 0
  {
    if k == 0 then 0
    else Tally(c, k - 1, n, e) + if (c + k) % n == e then 1 else 0
  }

  lemma QuotientUnique(x: int, n: int, q: int, r: int)
    requires 0 <= r < n && x == n * q + r
    ensures x / n == q && x % n == r
  {
    SameRemainder(x, r, n, q);
    var d := x / n - q;
    assert n * d == r - x % n;
    SmallMultiple(n, d);
  }

  lemma NextQuotient(x: int, n: int)
    requires n > 0
    ensures (x + 1) / n == x / n + if (x + 1) % n == 0 then 1 else 0
  {
    var q, q' := x / n, (x + 1) / n;
    assert x == n * q + x % n;
    assert x + 1 == n * q' + (x + 1) % n;
    if x % n == n - 1 {
      assert x + 1 == n * (q + 1);
      QuotientUnique(x + 1, n, q + 1, 0);
    } else {
      QuotientUnique(x + 1, n, q, x % n + 1);
    }
  }

  lemma ZeroRemainder(x: int, n: int, e: int)
    requires 0 <= e < n
    ensures (x - e) % n == 0 <==> x % n == e
  {
    if x % n == e {
      QuotientUnique(x - e, n, x / n, 0);
    } else if (x - e) % n == 0 {
      QuotientUnique(x, n, (x - e) / n, e);
      assert false;
    }
  }

  lemma NextTally(x: int, n: int, e: int)
    requires 0 <= e < n
    ensures (x - e) / n == (x - 1 - e) / n + if x % n == e then 1 else 0
  {
    NextQuotient(x - 1 - e, n);
    ZeroRemainder(x, n, e);
  }

  lemma {:induction false} TallyClosedForm(c: int, k: nat, n: int, e: int)
    requires 0 <= e < n
    ensures Tally(c, k, n, e) == (c + k - e) / n - (c - e) / n
  {
    if k == 0 {
    } else {
      TallyClosedForm(c, k - 1, n, e);
      NextTally(c + k, n, e);
    }
  }

  /** Consecutive starting points are spread as evenly as k over n allows. */
  lemma TallyBalanced(c: int, k: nat, n: int, e: int)
    requires 0 <= e < n
    ensures k / n <= Tally(c, k, n, e) <= k / n + if k % n == 0 then 0 else 1
  {
    TallyClosedForm(c, k, n, e);
    var x := c - e;
    var r := x % n + k % n;
    assert x + k == n * (x / n + k / n) + r;
    if r < n {
      QuotientUnique(x + k, n, x / n + k / n, r);
    } else {
      assert x + k == n * (x / n + k / n + 1) + (r - n);
      QuotientUnique(x + k, n, x / n + k / n + 1, r - n);
    }
  }
}
