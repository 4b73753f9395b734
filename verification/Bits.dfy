/** Python's operators on the bits of natural numbers, and their arithmetic. */
module Bits {

  function Pow2(k: nat): (p: nat)
    ensures p > 0
  {
    if k == 0 then 1 else 2 * Pow2(k - 1)
  }

  function BitAnd(a: nat, b: nat): nat {
    if a == 0 || b == 0 then 0 else 2 * BitAnd(a / 2, b / 2) + (if a % 2 == 1 && b % 2 == 1 then 1 else 0)
  }

  function BitOr(a: nat, b: nat): nat
    decreases a + b
  {
    if a == 0 then b else if b == 0 then a
    else 2 * BitOr(a / 2, b / 2) + (if a % 2 == 1 || b % 2 == 1 then 1 else 0)
  }

  function ShiftLeft(a: nat, k: nat): nat { if k == 0 then a else 2 * ShiftLeft(a, k - 1) }

  function ShiftRight(a: nat, k: nat): nat { if k == 0 then a else ShiftRight(a / 2, k - 1) }

  lemma {:induction false} MulStep(q: nat, q': nat, d: nat)
    requires q < q'
    ensures q' * d >= q * d + d
  {
    assert q' * d == (q' - 1) * d + d;
    if q < q' - 1 { MulStep(q, q' - 1, d); }
  }

  lemma {:induction false} DivModUnique(d: nat, q: nat, r: nat, q': nat, r': nat)
    requires r < d && r' < d && q * d + r == q' * d + r'
    ensures q == q' && r == r'
  {
    if q < q' { MulStep(q, q', d); }
    if q' < q { MulStep(q', q, d); }
  }

  lemma {:induction false} DivMod(n: nat, d: nat, q: nat, r: nat)
    requires r < d && n == q * d + r
    ensures n / d == q && n % d == r
  {
    assert n == (n / d) * d + n % d;
    DivModUnique(d, q, r, n / d, n % d);
  }

  lemma {:induction false} Pow2Adds(j: nat, k: nat)
    ensures Pow2(j + k) == Pow2(j) * Pow2(k)
  {
    if j > 0 {
      Pow2Adds(j - 1, k);
      assert Pow2(j) * Pow2(k) == 2 * (Pow2(j - 1) * Pow2(k));
    }
  }

  lemma {:induction false} Pow2Grows(j: nat, k: nat)
    requires j <= k
    ensures Pow2(j) <= Pow2(k)
  {
    if j < k { Pow2Grows(j, k - 1); }
  }

  lemma {:induction false} Halves(n: nat, p: nat)
    requires p > 0
    ensures n / (2 * p) == n / 2 / p
    ensures n % (2 * p) == 2 * ((n / 2) % p) + n % 2
  {
    var q, r := (n / 2) / p, (n / 2) % p;
    assert n / 2 == q * p + r;
    assert q * (2 * p) == 2 * (q * p);
    DivMod(n, 2 * p, q, 2 * r + n % 2);
  }

  lemma {:induction false} ShiftRightDivides(n: nat, k: nat)
    ensures ShiftRight(n, k) == n / Pow2(k)
  {
    if k > 0 {
      ShiftRightDivides(n / 2, k - 1);
      Halves(n, Pow2(k - 1));
    }
  }

  lemma {:induction false} ShiftLeftMultiplies(n: nat, k: nat)
    ensures ShiftLeft(n, k) == n * Pow2(k)
  {
    if k > 0 {
      ShiftLeftMultiplies(n, k - 1);
      assert n * Pow2(k) == 2 * (n * Pow2(k - 1));
    }
  }

  /** n & (2**k - 1) keeps the k lowest bits. */
  lemma {:induction false} AndMask(n: nat, k: nat)
    ensures BitAnd(n, Pow2(k) - 1) == n % Pow2(k)
  {
    if k == 0 {
      assert Pow2(0) == 1 && n % 1 == 0;
    } else {
      var p := Pow2(k - 1);
      AndMask(n / 2, k - 1);
      Halves(n, p);
      assert Pow2(k) == 2 * p;
      assert (2 * p - 1) / 2 == p - 1 && (2 * p - 1) % 2 == 1;
    }
  }

  /** Bits that do not overlap: or is plus. */
  lemma {:induction false} OrIsPlus(a: nat, b: nat, k: nat)
    requires a < Pow2(k)
    ensures BitOr(a, b * Pow2(k)) == a + b * Pow2(k)
  {
    var m := b * Pow2(k);
    if a > 0 && m > 0 {
      var p := Pow2(k - 1);
      assert m == 2 * (b * p);
      assert m / 2 == b * p && m % 2 == 0;
      OrIsPlus(a / 2, b, k - 1);
    }
  }

  /** n & 2**k picks bit k. */
  lemma {:induction false} AndBit(n: nat, k: nat)
    ensures BitAnd(n, Pow2(k)) == if n / Pow2(k) % 2 == 1 then Pow2(k) else 0
  {
    if k == 0 {
      assert Pow2(0) == 1 && BitAnd(n / 2, 0) == 0;
    } else {
      var p := Pow2(k - 1);
      AndBit(n / 2, k - 1);
      Halves(n, p);
      assert (2 * p) / 2 == p && (2 * p) % 2 == 0;
    }
  }

  // ---------------------------------------------------------------- the constants that occur

  lemma Pow2Of7()
    ensures Pow2(7) == 0x80
  {
  }

  lemma Pow2Of32()
    ensures Pow2(32) == 0x1_0000_0000
  {
    Pow2Of7();
    assert Pow2(8) == 0x100;
    Pow2Adds(8, 8);
    Pow2Adds(16, 16);
  }

  lemma Pow2Of70()
    ensures Pow2(63) == 0x8000_0000_0000_0000 && Pow2(70) == 0x40_0000_0000_0000_0000
  {
    Pow2Of7();
    Pow2Of32();
    Pow2Adds(32, 32);
    assert Pow2(64) == 2 * Pow2(63);
    Pow2Adds(63, 7);
  }
}
