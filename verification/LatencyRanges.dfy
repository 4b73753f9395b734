/** The sizes at which memory latency is measured (gem5/configs/dram/lat_mem_rd.py): four evenly
    spaced ones from each power of two to the next. */
module LatencyRanges {
  import opened Bits

  const MIN_RANGE := 4096
  const FIRST_STEP := 1024

  /** The test with n & (n - 1). */
  predicate IsPow2(n: nat) { n != 0 && BitAnd(n, n - 1) == 0 }

  lemma {:induction false} AndSelf(n: nat)
    ensures BitAnd(n, n) == n
  {
    if n > 0 { AndSelf(n / 2); }
  }

  lemma {:induction false} PowerPasses(k: nat)
    ensures IsPow2(Pow2(k))
  {
    var m := Pow2(k);
    if k == 0 {
      assert BitAnd(1, 0) == 0;
    } else {
      PowerPasses(k - 1);
      var h := Pow2(k - 1);
      assert m / 2 == h && m % 2 == 0 && (m - 1) / 2 == h - 1;
      assert BitAnd(m, m - 1) == 2 * BitAnd(h, h - 1);
    }
  }

  lemma OddFails(n: nat)
    requires n > 1 && n % 2 == 1
    ensures !IsPow2(n)
  {
    AndSelf(n / 2);
    assert (n - 1) / 2 == n / 2 && (n - 1) % 2 == 0;
    assert BitAnd(n, n - 1) == 2 * BitAnd(n / 2, n / 2);
  }

  lemma {:induction false} PassesIsPower(n: nat) returns (k: nat)
    requires IsPow2(n)
    ensures n == Pow2(k)
  {
    if n == 1 {
      k := 0;
    } else if n % 2 == 0 {
      assert (n - 1) / 2 == n / 2 - 1;
      assert BitAnd(n, n - 1) == 2 * BitAnd(n / 2, n / 2 - 1);
      k := PassesIsPower(n / 2);
      k := k + 1;
    } else {
      OddFails(n);
    }
  }

  /** The test is right: exactly the powers of two pass. */
  lemma IsPow2Iff(n: nat)
    ensures IsPow2(n) <==> exists k: nat :: n == Pow2(k)
  {
    hide IsPow2;
    if IsPow2(n) {
      var k := PassesIsPower(n);
    }
    if k: nat :| n == Pow2(k) {
      PowerPasses(k);
    }
  }

  lemma {:induction false} BetweenPowers(n: nat, m: nat)
    requires Pow2(m) < n < Pow2(m + 1)
    ensures !IsPow2(n)
  {
    hide IsPow2;
    if IsPow2(n) {
      var k := PassesIsPower(n);
      if k <= m { Pow2Grows(k, m); } else { Pow2Grows(m + 1, k); }
    }
  }

  /** The size at place i: the quarters between the powers of two from 2**12 on. */
  function SizeAt(i: nat): nat { Quarters(4 + i % 4, Pow2(10 + i / 4)) }

  function Quarters(n: nat, p: nat): nat
    requires n < 8
  {
    if n == 4 then 4 * p else if n == 5 then 5 * p else if n == 6 then 6 * p else n * p
  }

  lemma QuarterIsNoPower(n: nat, m: nat)
    requires 5 <= n <= 7
    ensures !IsPow2(Quarters(n, Pow2(m)))
  {
    var p := Pow2(m);
    assert Pow2(m + 1) == 2 * p && Pow2(m + 2) == 4 * p && Pow2(m + 3) == 8 * p;
    assert n == 7 ==> Quarters(n, p) == 7 * p;
    BetweenPowers(Quarters(n, p), m + 2);
  }

  /** The candidate behind place i is a power of two just after three quarter points. */
  lemma NextSize(i: nat)
    ensures SizeAt(i) + Pow2(10 + i / 4) == SizeAt(i + 1)
    ensures IsPow2(SizeAt(i + 1)) <==> i % 4 == 3
    ensures Pow2(10 + (i + 1) / 4) == if i % 4 == 3 then 2 * Pow2(10 + i / 4) else Pow2(10 + i / 4)
  {
    hide IsPow2;
    var m := 10 + i / 4;
    var p := Pow2(m);
    if i % 4 == 3 {
      assert (i + 1) / 4 == i / 4 + 1 && (i + 1) % 4 == 0;
      assert Pow2(m + 1) == 2 * p && Pow2(m + 2) == 4 * p && Pow2(m + 3) == 8 * p;
      assert SizeAt(i) == 7 * p && SizeAt(i + 1) == Pow2(m + 3);
      PowerPasses(m + 3);
    } else {
      assert (i + 1) / 4 == i / 4 && (i + 1) % 4 == i % 4 + 1;
      assert i % 4 == 2 ==> Quarters(7, p) == 7 * p;
      QuarterIsNoPower(4 + (i + 1) % 4, m);
    }
  }

  method MakeRanges(maxRange: int) returns (ranges: seq<nat>)
    ensures |ranges| >= 1 && forall i :: 0 <= i < |ranges| ==> ranges[i] == SizeAt(i)
    ensures ranges[|ranges| - 1] >= maxRange
    ensures forall i :: 0 <= i < |ranges| - 1 ==> ranges[i] < maxRange
  {
    FirstSize();
    hide SizeAt, IsPow2, Pow2;
    ranges := [MIN_RANGE];
    var step := FIRST_STEP;
    while ranges[|ranges| - 1] < maxRange
      invariant |ranges| >= 1 && forall i :: 0 <= i < |ranges| ==> ranges[i] == SizeAt(i)
      invariant forall i :: 0 <= i < |ranges| - 1 ==> ranges[i] < maxRange
      invariant step == Pow2(10 + (|ranges| - 1) / 4)
      decreases maxRange - ranges[|ranges| - 1]
    {
      NextSize(|ranges| - 1);
      var newRange := ranges[|ranges| - 1] + step;
      if IsPow2(newRange) {
        step := step * 2;
      }
      ranges := ranges + [newRange];
    }
  }

  lemma FirstSize()
    ensures SizeAt(0) == MIN_RANGE && Pow2(10) == FIRST_STEP
  {
  }

  /** Every power of two from 4096 on is at a place divisible by four, and the three places behind
      it divide the way to the next one evenly. */
  lemma PowersAndQuarters(q: nat)
    ensures var p, i := Pow2(12 + q), 4 * q;
            && SizeAt(i) == p
            && 4 * SizeAt(i + 1) == 5 * p && 4 * SizeAt(i + 2) == 6 * p && 4 * SizeAt(i + 3) == 7 * p
            && SizeAt(i + 4) == 2 * p
  {
    assert Pow2(12 + q) == 2 * Pow2(11 + q) == 4 * Pow2(10 + q);
    assert (4 * q) / 4 == q && (4 * q + 1) / 4 == q && (4 * q + 2) / 4 == q
      && (4 * q + 3) / 4 == q && (4 * q + 4) / 4 == q + 1;
    assert Quarters(7, Pow2(10 + q)) == 7 * Pow2(10 + q);
  }

  /** And no other size is a power of two. */
  lemma OnlyEveryFourthIsPower(i: nat)
    ensures IsPow2(SizeAt(i)) <==> i % 4 == 0
  {
    hide IsPow2;
    if i % 4 == 0 {
      PowersAndQuarters(i / 4);
      PowerPasses(12 + i / 4);
    } else {
      QuarterIsNoPower(4 + i % 4, 10 + i / 4);
    }
  }
}
