/** How often a channel that is not found gets searched: at counts that are powers of two. */
module BackOff {

  const DEFAULT_USER_VALUE := 1
  const BOOST_VALUE := 1
  const MAX_COUNT_VALUE := 256
  const MAX_FALLBACK_COUNT_VALUE := 129

  /** Bitwise and of two non-negative numbers. */
  function BitAnd(a: nat, b: nat): nat
  {
    if a == 0 || b == 0 then 0 else 2 * BitAnd(a / 2, b / 2) + if a % 2 == 1 && b % 2 == 1 then 1 else 0
  }

  predicate IsPowerOfTwo(x: int)
  {
    x > 0 && BitAnd(x, x - 1) == 0
  }

  function Pow2(k: nat): nat
  {
    if k == 0 then 1 else 2 * Pow2(k - 1)
  }

  lemma {:induction false} SelfAnd(x: nat)
    ensures BitAnd(x, x) == x
  {
    if x > 0 {
      SelfAnd(x / 2);
    }
  }

  /** The bit trick recognises exactly the powers of two. */
  lemma {:induction false} PowersOfTwo(x: int)
    ensures IsPowerOfTwo(x) <==> exists k: nat :: x == Pow2(k)
  {
    if x <= 0 {
      forall k: nat ensures x != Pow2(k) { PowPositive(k); }
    } else if x == 1 {
      assert x == Pow2(0);
    } else if x % 2 == 1 {
      assert (x - 1) / 2 == x / 2;
      SelfAnd(x / 2);
      forall k: nat ensures x != Pow2(k) { assert k > 0 ==> Pow2(k) == 2 * Pow2(k - 1); }
    } else {
      var h := x / 2;
      PowersOfTwo(h);
      assert (x - 1) / 2 == h - 1 && (x - 1) % 2 == 1;
      if IsPowerOfTwo(h) {
        var k: nat :| h == Pow2(k);
        assert x == Pow2(k + 1);
      }
      forall k: nat | x == Pow2(k) ensures IsPowerOfTwo(h) { assert h == Pow2(k - 1); }
    }
  }

  lemma {:induction false} PowPositive(k: nat)
    ensures Pow2(k) >= 1
  {
    if k > 0 {
      PowPositive(k - 1);
    }
  }

  lemma {:induction false} PowGrows(i: nat, j: nat)
    requires i < j
    ensures 2 * Pow2(i) <= Pow2(j)
    decreases j
  {
    PowPositive(i);
    if i < j - 1 {
      PowGrows(i, j - 1);
    }
  }

  /** No power of two lies strictly between a power of two and its double. */
  lemma {:induction false} NoneBetween(x: int, k: nat)
    requires Pow2(k) < x < Pow2(k + 1)
    ensures !IsPowerOfTwo(x)
  {
    PowersOfTwo(x);
    forall j: nat ensures x != Pow2(j)
    {
      if j < k {
        PowGrows(j, k);
      } else if j > k + 1 {
        PowGrows(k + 1, j);
      }
    }
  }

  // ----- the counter of one channel -----

  /** The counter after a tick. */
  function Tick(c: int): int
  {
    if c >= MAX_COUNT_VALUE then MAX_FALLBACK_COUNT_VALUE else c + 1
  }

  datatype Event = Ticked | Boosted | Registered(penalize: bool)

  function Next(c: int, e: Event): int
  {
    match e
    case Ticked => Tick(c)
    case Boosted => BOOST_VALUE
    case Registered(penalize) => if penalize then MAX_FALLBACK_COUNT_VALUE else DEFAULT_USER_VALUE
  }

  /** The event sends a search for the channel. */
  predicate Searches(c: int, e: Event)
  {
    e.Ticked? && IsPowerOfTwo(c)
  }

  function After(c: int, es: seq<Event>): int
    decreases |es|
  {
    if es == [] then c else After(Next(c, es[0]), es[1..])
  }

  function Ticks(es: seq<Event>): nat
  {
    if es == [] then 0 else (if es[0].Ticked? then 1 else 0) + Ticks(es[1..])
  }

  function Hits(c: int, es: seq<Event>): nat
    decreases |es|
  {
    if es == [] then 0 else (if Searches(c, es[0]) then 1 else 0) + Hits(Next(c, es[0]), es[1..])
  }

  predicate InRange(c: int)
  {
    1 <= c <= MAX_COUNT_VALUE
  }

  lemma {:induction false} RangeKept(c: int, es: seq<Event>)
    requires InRange(c)
    ensures InRange(After(c, es))
    decreases |es|
  {
    if es != [] {
      RangeKept(Next(c, es[0]), es[1..]);
    }
  }

  /** Ticks that pass before the next search. */
  function Wait(c: int): int
    requires InRange(c)
  {
    if c <= 1 then 1 - c else if c <= 2 then 2 - c else if c <= 4 then 4 - c else if c <= 8 then 8 - c
    else if c <= 16 then 16 - c else if c <= 32 then 32 - c else if c <= 64 then 64 - c
    else if c <= 128 then 128 - c else 256 - c
  }

  lemma {:induction false} Powers()
    ensures Pow2(0) == 1 && Pow2(1) == 2 && Pow2(2) == 4 && Pow2(3) == 8 && Pow2(4) == 16
    ensures Pow2(5) == 32 && Pow2(6) == 64 && Pow2(7) == 128 && Pow2(8) == 256
  {
    assert Pow2(2) == 2 * Pow2(1) && Pow2(3) == 2 * Pow2(2) && Pow2(4) == 2 * Pow2(3);
    assert Pow2(5) == 2 * Pow2(4) && Pow2(6) == 2 * Pow2(5) && Pow2(7) == 2 * Pow2(6) && Pow2(8) == 2 * Pow2(7);
  }

  lemma {:induction false} WaitIsOver(c: int)
    requires InRange(c)
    ensures IsPowerOfTwo(c) <==> Wait(c) == 0
  {
    Powers();
    if Wait(c) == 0 {
      assert exists k: nat :: c == Pow2(k) by {
        var k := if c == 1 then 0 else if c == 2 then 1 else if c == 4 then 2 else if c == 8 then 3 else if c == 16 then 4
                 else if c == 32 then 5 else if c == 64 then 6 else if c == 128 then 7 else 8;
        assert c == Pow2(k);
      }
      PowersOfTwo(c);
    } else {
      var k := if c < 4 then 1 else if c < 8 then 2 else if c < 16 then 3 else if c < 32 then 4
               else if c < 64 then 5 else if c < 128 then 6 else 7;
      NoneBetween(c, k);
    }
  }

  /** No penalised registration resets the counter on the way. */
  predicate Undisturbed(es: seq<Event>)
  {
    forall e :: e in es ==> e != Registered(true)
  }

  /** Through any ticks and boosts, a channel goes no longer without a search than its
      counter says. */
  lemma {:induction false} NoSearchNoTicks(c: int, es: seq<Event>)
    requires InRange(c) && Undisturbed(es) && Hits(c, es) == 0
    ensures Ticks(es) <= Wait(c)
    decreases |es|
  {
    if es != [] {
      WaitIsOver(c);
      assert es[0] in es && forall e :: e in es[1..] ==> e in es;
      NoSearchNoTicks(Next(c, es[0]), es[1..]);
    }
  }

  /** Any stretch with 128 ticks contains a search, wherever it starts. */
  lemma {:induction false} SearchedEvery128(c: int, before: seq<Event>, es: seq<Event>)
    requires InRange(c) && Undisturbed(es) && Ticks(es) >= 128
    ensures Hits(After(c, before), es) >= 1
  {
    RangeKept(c, before);
    if Hits(After(c, before), es) == 0 {
      NoSearchNoTicks(After(c, before), es);
    }
  }

  // ----- an undisturbed channel -----

  function TicksOnly(n: nat): seq<Event>
  {
    seq(n, i => Ticked)
  }

  function Log2(n: nat): nat
    requires n >= 1
  {
    if n == 1 then 0 else 1 + Log2(n / 2)
  }

  lemma {:induction false} OneMore(c: int, es: seq<Event>)
    ensures After(c, es + [Ticked]) == Tick(After(c, es))
    ensures Hits(c, es + [Ticked]) == Hits(c, es) + if IsPowerOfTwo(After(c, es)) then 1 else 0
    decreases |es|
  {
    if es == [] {
      assert es + [Ticked] == [Ticked] && [Ticked][1..] == [];
    } else {
      OneMore(Next(c, es[0]), es[1..]);
      assert (es + [Ticked])[1..] == es[1..] + [Ticked];
    }
  }

  lemma {:induction false} OneMoreTick(c: int, n: nat)
    requires n > 0
    ensures After(c, TicksOnly(n)) == Tick(After(c, TicksOnly(n - 1)))
    ensures Hits(c, TicksOnly(n)) == Hits(c, TicksOnly(n - 1)) + if IsPowerOfTwo(After(c, TicksOnly(n - 1))) then 1 else 0
  {
    assert TicksOnly(n) == TicksOnly(n - 1) + [Ticked];
    OneMore(c, TicksOnly(n - 1));
  }

  lemma {:induction false} Log2Step(n: nat)
    requires n >= 2
    ensures Log2(n) == Log2(n - 1) + if IsPowerOfTwo(n) then 1 else 0
  {
    PowersOfTwo(n);
    var h := n / 2;
    if n % 2 == 1 {
      assert (n - 1) / 2 == h;
      forall k: nat ensures n != Pow2(k) { assert k > 0 ==> Pow2(k) == 2 * Pow2(k - 1); }
    } else if n == 2 {
      assert Pow2(1) == 2;
    } else {
      assert (n - 1) / 2 == h - 1;
      Log2Step(h);
      PowersOfTwo(h);
      if k: nat :| n == Pow2(k) {
        assert h == Pow2(k - 1);
      }
      if k: nat :| h == Pow2(k) {
        assert n == Pow2(k + 1);
      }
    }
  }

  /** A new channel has been searched once at each power of two while its counter climbs. */
  lemma {:induction false} ClimbCount(n: nat)
    requires 1 <= n <= MAX_COUNT_VALUE
    ensures After(DEFAULT_USER_VALUE, TicksOnly(n - 1)) == n
    ensures Hits(DEFAULT_USER_VALUE, TicksOnly(n)) == Log2(n) + 1
    decreases n
  {
    OneMoreTick(1, n);
    if n == 1 {
      PowersOfTwo(1);
      assert 1 == Pow2(0);
    } else {
      ClimbCount(n - 1);
      OneMoreTick(1, n - 1);
      Log2Step(n);
    }
  }

  lemma {:induction false} Log2Pow(k: nat)
    ensures Pow2(k) >= 1 && Log2(Pow2(k)) == k
  {
    PowPositive(k);
    if k > 0 {
      Log2Pow(k - 1);
    }
  }

  lemma {:induction false} ClimbEnd()
    ensures After(DEFAULT_USER_VALUE, TicksOnly(MAX_COUNT_VALUE)) == MAX_FALLBACK_COUNT_VALUE
    ensures Hits(DEFAULT_USER_VALUE, TicksOnly(MAX_COUNT_VALUE)) == 9
  {
    ClimbCount(MAX_COUNT_VALUE);
    OneMoreTick(DEFAULT_USER_VALUE, MAX_COUNT_VALUE);
    Powers();
    Log2Pow(8);
  }

  lemma {:induction false} SteadyStep(c: int)
    requires MAX_FALLBACK_COUNT_VALUE <= c <= MAX_COUNT_VALUE
    ensures IsPowerOfTwo(c) <==> c == MAX_COUNT_VALUE
  {
    WaitIsOver(c);
  }

  lemma {:induction false} Cycle(k: nat)
    ensures (k + 1) % 128 == if k % 128 == 127 then 0 else k % 128 + 1
    ensures (k + 1) / 128 == k / 128 + if k % 128 == 127 then 1 else 0
  {
  }

  /** From then on it is searched once in 128 ticks. */
  lemma {:induction false} SteadyCount(m: nat)
    ensures After(DEFAULT_USER_VALUE, TicksOnly(MAX_COUNT_VALUE + m)) == MAX_FALLBACK_COUNT_VALUE + m % 128
    ensures Hits(DEFAULT_USER_VALUE, TicksOnly(MAX_COUNT_VALUE + m)) == 9 + m / 128
    decreases m
  {
    if m == 0 {
      ClimbEnd();
    } else {
      SteadyCount(m - 1);
      OneMoreTick(DEFAULT_USER_VALUE, MAX_COUNT_VALUE + m);
      SteadyStep(After(DEFAULT_USER_VALUE, TicksOnly(MAX_COUNT_VALUE + m - 1)));
      Cycle(m - 1);
    }
  }
}
